/** A buffered input stream that holds a window of a file in memory. */
module BinaryInputs {
  import opened Integers
  import opened BitStrings
  import opened ByteStreams

  /** OutOfMemory stands for a thrown message, OutsideBuffer for an access behind the buffer. */
  datatype Outcome = Done | OutOfMemory | OutsideBuffer

  /** How much of a large file is held in memory at first. */
  const INITIAL_BUFFER_LENGTH := 50_000_000

  /** The part of the file that a window covers, or would if the file were longer. */
  datatype Span = Span(start: int, size: nat) {
    function End(): int {
      start + size
    }
  }

  /** The window once the n bytes from position p on are in it: one that ends before them is moved to start there. */
  function Loaded(w: Span, p: int, n: nat): (moved: Span)
    ensures w.size <= moved.size
  {
    if p + n > w.End() then Span(p, Max(w.size, n)) else w
  }

  /** The window after k single bytes have been read. */
  function LoadedEach(w: Span, p: int, k: nat): (moved: Span)
    ensures w.size <= moved.size
  {
    if k == 0 then w else Loaded(LoadedEach(w, p, k - 1), p + k - 1, 1)
  }

  lemma LoadedNext(w: Span, p: int, k: nat)
    ensures LoadedEach(w, p, k + 1) == Loaded(LoadedEach(w, p, k), p + k, 1)
  {
  }

  /** The window once position p is in it or right behind it. */
  function Reached(w: Span, p: int): Span {
    if w.start <= p <= w.End() then w else Span(p, w.size)
  }

  /** The window while the bytes from position p on of a file are searched for a null. */
  function Searched(w: Span, p: int, length: nat): Span {
    if p < length - 1 then Loaded(w, p, 1) else w
  }

  /** The window behind a string that takes n bytes. */
  function PastString(w: Span, p: int, n: nat, length: nat): Span {
    Loaded(Searched(w, p, length), p, n)
  }

  /** The window behind a string that takes n bytes, and a padding byte if that is odd. */
  function PastEvenString(w: Span, p: int, n: nat, length: nat): Span {
    var after := PastString(w, p, n, length);
    if p + n < length && n % 2 == 1 then Reached(after, p + n + 1) else after
  }

  class BinaryInput {
    /** The whole file. */
    const file: seq<Byte>
    /** The window; it may reach past the end of the file. */
    var buffer: array<Byte>
    /** The position within the window. */
    var pos: int
    /** Where the window starts in the file. */
    var alreadyRead: int
    var bitString: nat
    var bitPos: int
    var beginEndBits: int

    /** How much of the buffer holds bytes of the file. */
    function WindowSize(): int
      reads this
    {
      Min(buffer.Length, |file| - alreadyRead)
    }

    ghost predicate Valid()
      reads this, buffer
    {
      && 0 <= alreadyRead <= |file| && 0 <= pos && alreadyRead + pos <= |file|
      && forall i :: 0 <= i < WindowSize() ==> buffer[i] == file[alreadyRead + i]
    }

    /** The position within the whole file. */
    function Position(): int
      reads this
    {
      pos + alreadyRead
    }

    /** Opens data of which the first window bytes fit in memory. */
    constructor (data: seq<Byte>, window: nat)
      requires window <= |data|
      ensures Valid() && file == data && Position() == 0 && fresh(buffer) && buffer.Length == window
              && beginEndBits == 0
    {
      file := data;
      var read := new Byte[window];
      forall i | 0 <= i < window {
        read[i] := data[i];
      }
      buffer := read;
      pos, alreadyRead := 0, 0;
      bitString, bitPos, beginEndBits := 0, 0, 0;
    }

    ghost predicate SameBits(bits: nat, n: int, begun: int)
      reads this
    {
      bitString == bits && bitPos == n && beginEndBits == begun
    }

    function Window(): Span
      reads this
    {
      Span(alreadyRead, buffer.Length)
    }

    /** A read of at most n bytes at once moves the window as given; it fails only if the window does not hold so
        many. */
    ghost predicate Moved(outcome: Outcome, w: Span, n: nat, after: Span)
      reads this
    {
      && outcome != OutsideBuffer
      && (outcome == OutOfMemory ==> w.size < n)
      && (outcome == Done ==> Window() == after)
    }

    /** Loads the section of the file from a start position, at least minLength bytes of it. */
    method LoadIntoMemory(startPosition: int, minLength: nat) returns (outcome: Outcome)
      requires 0 <= startPosition <= Position() <= |file| && startPosition + minLength <= |file|
      modifies this, buffer
      ensures outcome == Done || outcome == OutOfMemory
      ensures outcome == Done ==> Valid() && Position() == old(Position()) && alreadyRead == startPosition
      ensures outcome == Done ==> WindowSize() >= minLength && buffer.Length == Max(old(buffer.Length), minLength)
      ensures outcome == OutOfMemory ==> old(buffer.Length) < minLength
      ensures buffer == old(buffer) || fresh(buffer)
      ensures SameBits(old(bitString), old(bitPos), old(beginEndBits))
    {
      var absPos := alreadyRead + pos;
      if buffer.Length < minLength {
        var available := *;
        if !available {
          return OutOfMemory;
        }
        buffer := new Byte[minLength];
      }
      alreadyRead := startPosition;
      var toRead := Min(buffer.Length, |file| - alreadyRead);
      forall i | 0 <= i < toRead {
        buffer[i] := file[alreadyRead + i];
      }
      pos := absPos - alreadyRead;
      outcome := Done;
    }

    /** Moves the window, if need be, so that the next nbytes bytes are in it. */
    method PrepareToRead(nbytes: nat) returns (outcome: Outcome)
      requires Valid() && Position() + nbytes <= |file|
      modifies this, buffer
      ensures outcome == Done ==> Valid() && Position() == old(Position()) && pos + nbytes <= WindowSize()
      ensures old(pos) + nbytes <= old(buffer.Length) ==> outcome == Done && buffer == old(buffer)
      ensures Moved(outcome, old(Window()), nbytes, Loaded(old(Window()), old(Position()), nbytes))
      ensures buffer == old(buffer) || fresh(buffer)
      ensures SameBits(old(bitString), old(bitPos), old(beginEndBits))
    {
      outcome := Done;
      if pos + nbytes > buffer.Length {
        outcome := LoadIntoMemory(pos + alreadyRead, nbytes);
      }
    }

    /** Reads the next n bytes of the file, wherever the window is. */
    method ReadBytes(n: nat) returns (outcome: Outcome, bytes: seq<Byte>)
      requires Valid() && Position() + n <= |file|
      modifies this, buffer
      ensures outcome == Done ==> Valid() && bytes == file[old(Position())..old(Position()) + n]
      ensures outcome == Done ==> Position() == old(Position()) + n && n <= pos
      ensures Moved(outcome, old(Window()), n, Loaded(old(Window()), old(Position()), n))
      ensures buffer == old(buffer) || fresh(buffer)
      ensures SameBits(old(bitString), old(bitPos), old(beginEndBits))
    {
      bytes := [];
      outcome := PrepareToRead(n);
      if outcome == Done {
        bytes := buffer[pos..pos + n];
        assert forall k :: 0 <= k < n ==> bytes[k] == buffer[pos + k] == file[Position() + k];
        pos := pos + n;
      }
    }

    /** Moves to position p of the file, forwards or backwards. */
    method SetPosition(p: nat) returns (outcome: Outcome)
      requires Valid() && p <= |file|
      modifies this, buffer
      ensures outcome == Done && Valid() && Position() == p && Window() == Reached(old(Window()), p)
      ensures buffer == old(buffer) || fresh(buffer)
      ensures SameBits(old(bitString), old(bitPos), old(beginEndBits))
    {
      outcome := Done;
      pos := p - alreadyRead;
      if pos < 0 || pos > buffer.Length {
        outcome := LoadIntoMemory(pos + alreadyRead, 0);
      }
    }

    method ReadUInt8() returns (outcome: Outcome, b: Byte)
      requires Valid() && Position() < |file|
      modifies this, buffer
      ensures outcome == Done ==> Valid() && b == file[old(Position())] && Position() == old(Position()) + 1 && 1 <= pos
      ensures Moved(outcome, old(Window()), 1, Loaded(old(Window()), old(Position()), 1))
      ensures buffer == old(buffer) || fresh(buffer)
      ensures SameBits(old(bitString), old(bitPos), old(beginEndBits))
    {
      b := 0;
      outcome := PrepareToRead(1);
      if outcome == Done {
        b := buffer[pos];
        pos := pos + 1;
      }
    }

    method ReadUInt32(swapBytes: bool) returns (outcome: Outcome, u: nat)
      requires Valid() && Position() + 4 <= |file|
      modifies this, buffer
      ensures outcome == Done ==> Valid() && u == WordOf(file[old(Position())..old(Position()) + 4], swapBytes)
      ensures outcome == Done ==>
                var p := old(Position());
                var a: int, b: int, c: int, d: int := file[p], file[p + 1], file[p + 2], file[p + 3];
                u == if swapBytes then a * 16_777_216 + b * 65_536 + c * 256 + d
                     else a + b * 256 + c * 65_536 + d * 16_777_216
      ensures outcome == Done ==> Position() == old(Position()) + 4
      ensures Moved(outcome, old(Window()), 4, Loaded(old(Window()), old(Position()), 4))
      ensures buffer == old(buffer) || fresh(buffer)
      ensures SameBits(old(bitString), old(bitPos), old(beginEndBits))
    {
      u := 0;
      var bytes;
      outcome, bytes := ReadBytes(4);
      if outcome == Done {
        u := WordOf(bytes, swapBytes);
      }
    }

    /** A string that takes up n bytes of the file. */
    method ReadString(n: nat) returns (outcome: Outcome, s: seq<Byte>)
      requires Valid() && Position() + n <= |file|
      modifies this, buffer
      ensures outcome == Done ==> Valid() && s == CString(file[old(Position())..old(Position()) + n])
      ensures outcome == Done ==> Position() == old(Position()) + n
      ensures Moved(outcome, old(Window()), n, Loaded(old(Window()), old(Position()), n))
      ensures buffer == old(buffer) || fresh(buffer)
      ensures SameBits(old(bitString), old(bitPos), old(beginEndBits))
    {
      s := [];
      var bytes;
      outcome, bytes := ReadBytes(n);
      if outcome == Done {
        s := CString(bytes);
      }
    }

    /** The window ends before the last byte of the file, and no null lies in the rest of it. */
    predicate RunsOut()
      requires Valid()
      reads this, buffer
    {
      var end := Searched(Window(), Position(), |file|).End();
      Position() < end < |file| - 1 && 0 !in file[Position()..end]
    }

    /** Counts the bytes before the next null or the last byte of the file, within the buffer. */
    method Scan() returns (inside: bool, n: nat)
      requires Valid() && Position() < |file| && (Position() < |file| - 1 ==> pos + 1 <= buffer.Length)
      ensures inside ==> Position() + n < |file| && 0 !in file[Position()..][..n]
      ensures inside ==> file[Position()..][n] == 0 || n + 1 == |file[Position()..]|
      ensures inside <==> !RunsOut()
    {
      n := 0;
      ghost var p := Position();
      while Position() + n < |file| - 1
        invariant p + n <= |file| - 1 && 0 !in file[p..p + n]
        invariant n > 0 ==> pos + n <= buffer.Length
        decreases |file| - n
      {
        if pos + n >= buffer.Length {
          return false, n;
        }
        assert buffer[pos + n] == file[p + n];
        if buffer[pos + n] == 0 {
          ghost var end := Searched(Window(), p, |file|).End();
          assert end < |file| ==> file[p..end][n] == 0;
          break;
        }
        assert file[p..p + n + 1] == file[p..p + n] + [file[p + n]];
        n := n + 1;
      }
      assert file[p..][..n] == file[p..p + n];
      inside := true;
    }

    /** How the search for the null of the string t moves the window, and fails. */
    ghost predicate ToNull(outcome: Outcome, w: Span, p: int, t: seq<Byte>)
      reads this
    {
      var n := Min(|t| + 1, |file| - p);
      && (outcome == OutOfMemory ==> w.size < n)
      && (outcome == Done ==> n >= 0 && Window() == PastString(w, p, n, |file|))
    }

    /** A string that a null or the end of the file ends. The search looks at the buffer only: a string
        that runs past the window would be read outside the buffer. */
    method ReadStringToNull() returns (outcome: Outcome, s: seq<Byte>)
      requires Valid() && Position() < |file|
      modifies this, buffer
      ensures outcome == Done ==> Valid() && s == CString(file[old(Position())..])
      ensures outcome == Done ==> Position() == old(Position()) + Min(|s| + 1, |file| - old(Position()))
      ensures outcome == OutsideBuffer ==> old(RunsOut())
      ensures old(RunsOut()) ==> outcome == OutsideBuffer || (outcome == OutOfMemory && old(buffer.Length) == 0)
      ensures ToNull(outcome, old(Window()), old(Position()), CString(file[old(Position())..]))
      ensures buffer == old(buffer) || fresh(buffer)
      ensures SameBits(old(bitString), old(bitPos), old(beginEndBits))
    {
      s := [];
      ghost var w, t := Window(), CString(file[Position()..]);
      outcome := PrepareString();
      if outcome == Done {
        outcome, s := ReadScanned();
      }
    }

    method PrepareString() returns (outcome: Outcome)
      requires Valid() && Position() < |file|
      modifies this, buffer
      ensures outcome == Done || (outcome == OutOfMemory && old(buffer.Length) == 0)
      ensures outcome == Done ==>
                Valid() && Position() == old(Position()) && (Position() < |file| - 1 ==> pos + 1 <= buffer.Length)
      ensures outcome == Done ==> RunsOut() == old(RunsOut()) && Window() == Searched(old(Window()), Position(), |file|)
      ensures buffer == old(buffer) || fresh(buffer)
      ensures SameBits(old(bitString), old(bitPos), old(beginEndBits))
    {
      outcome := Done;
      if Position() < |file| - 1 {
        outcome := PrepareToRead(1);
      }
    }

    method ReadScanned() returns (outcome: Outcome, s: seq<Byte>)
      requires Valid() && Position() < |file| && (Position() < |file| - 1 ==> pos + 1 <= buffer.Length)
      modifies this, buffer
      ensures outcome == Done ==> Valid() && s == CString(file[old(Position())..])
      ensures outcome == Done ==> Position() == old(Position()) + Min(|s| + 1, |file| - old(Position()))
      ensures outcome == OutsideBuffer <==> old(RunsOut())
      ensures outcome != OutsideBuffer ==>
                var n := Min(|CString(file[old(Position())..])| + 1, |file| - old(Position()));
                Moved(outcome, old(Window()), n, Loaded(old(Window()), old(Position()), n))
      ensures buffer == old(buffer) || fresh(buffer)
      ensures SameBits(old(bitString), old(bitPos), old(beginEndBits))
    {
      hide CString;
      assert 0 <= Position();
      hide Valid;
      hide RunsOut;
      var inside, n := Scan();
      if !inside {
        return OutsideBuffer, [];
      }
      ghost var rest := file[Position()..];
      CStringOfPrefix(rest, n);
      assert rest[..n + 1] == file[Position()..Position() + (n + 1)];
      outcome, s := ReadString(n + 1);
    }

    /** The same for a string that is followed by one more byte if its length with the null is odd. */
    ghost predicate ToNullEven(outcome: Outcome, w: Span, p: int, t: seq<Byte>)
      reads this
    {
      var n := Min(|t| + 1, |file| - p);
      && (outcome == OutOfMemory ==> w.size < n)
      && (outcome == Done ==> n >= 0 && Window() == PastEvenString(w, p, n, |file|))
    }

    method ReadStringEven() returns (outcome: Outcome, s: seq<Byte>)
      requires Valid() && Position() < |file|
      modifies this, buffer
      ensures outcome == Done ==> Valid() && s == CString(file[old(Position())..])
      ensures outcome == Done ==> Position() == Min(old(Position()) + |s| + 1 + (|s| + 1) % 2, |file|)
      ensures outcome == OutsideBuffer ==> old(RunsOut())
      ensures old(RunsOut()) ==> outcome == OutsideBuffer || (outcome == OutOfMemory && old(buffer.Length) == 0)
      ensures ToNullEven(outcome, old(Window()), old(Position()), CString(file[old(Position())..]))
      ensures buffer == old(buffer) || fresh(buffer)
      ensures SameBits(old(bitString), old(bitPos), old(beginEndBits))
    {
      outcome, s := ReadStringToNull();
      if outcome == Done && Position() < |file| && (|s| + 1) % 2 == 1 {
        outcome := SetPosition(Position() + 1);
      }
    }

    // ---------- bits ----------

    /** Since BeginBits at position start with window w, count bits have been read; the bits of the current byte that
        are left are in the bit string. */
    ghost predicate Unpacking(start: int, count: nat, w: Span)
      reads this, buffer
    {
      && Valid() && beginEndBits == 1 && 0 <= start && 1 <= pos && 1 <= buffer.Length
      && start + 1 <= Position() && Window() == LoadedEach(w, start, Position() - start)
      && Unpacked(file, start, count, Position(), bitPos, bitString)
    }

    method BeginBits() returns (outcome: Outcome)
      requires Valid() && beginEndBits == 0 && Position() < |file|
      modifies this, buffer
      ensures outcome == Done ==> Unpacking(old(Position()), 0, old(Window()))
      ensures Moved(outcome, old(Window()), 1, Loaded(old(Window()), old(Position()), 1))
      ensures buffer == old(buffer) || fresh(buffer)
    {
      hide Bits;
      hide BytesBits;
      beginEndBits := 1;
      bitPos := 0;
      var b;
      outcome, b := ReadUInt8();
      if outcome == Done {
        bitString := b;
        ByteBits(file[Position() - 1..], 0);
        assert LoadedEach(old(Window()), old(Position()), 0) == old(Window());
      }
    }

    method ReadBit(ghost start: int, ghost count: nat, ghost w: Span) returns (b: nat)
      requires Unpacking(start, count, w) && 8 * (|file| - start) > count
      modifies this, buffer
      ensures Unpacking(start, count + 1, w) && b == Bit(BytesBits(file[start..])[count])
      ensures buffer == old(buffer) || fresh(buffer)
    {
      hide Bits;
      hide BytesBits;
      hide LoadedEach;
      if bitPos > 7 {
        bitPos := 0;
        LoadedNext(w, start, Position() - start);
        var outcome, next := ReadUInt8();
        assert outcome == Done;
        bitString := next;
        NextByte(file, start, count, Position() - 1);
      }
      UnpackBit(file, start, count, Position(), bitPos, bitString);
      b := bitString % 2;
      bitString := bitString / 2;
      bitPos := bitPos + 1;
    }

    /** Reads at most 32 bits into a word. No read fails any more once there is a first byte. */
    method ReadBits(numBits: nat, ghost start: int, ghost count: nat, ghost w: Span) returns (value: nat)
      requires Unpacking(start, count, w) && numBits <= 32 && count + numBits <= 8 * (|file| - start)
      requires 0 <= start <= |file|
      modifies this, buffer
      ensures Unpacking(start, count + numBits, w)
      ensures value == Value(BytesBits(file[start..])[count..count + numBits])
      ensures buffer == old(buffer) || fresh(buffer)
    {
      hide *;
      value := 0;
      var n := numBits;
      ghost var all := BytesBits(file[start..]);
      NothingRead(all, count);
      while n > 0
        invariant 0 <= n <= numBits
        invariant Unpacking(start, count + (numBits - n), w) && BitsRead(all, count, numBits - n, value)
        invariant buffer == old(buffer) || fresh(buffer)
        decreases n
      {
        var b := ReadBit(start, count + (numBits - n), w);
        NextRead(all, count, numBits - n, value);
        value := Or(value, ShiftLeft(b, numBits - n));
        n := n - 1;
      }
      AllRead(all, count, numBits, value);
    }

    /** Ends bit-reading; puts back the byte read ahead if no bit of it was used. */
    method EndBits(ghost start: int, ghost count: nat, ghost w: Span)
      requires Unpacking(start, count, w)
      modifies this`pos, this`beginEndBits, this`bitPos
      ensures Valid() && beginEndBits == 0 && Position() == start + (count + 7) / 8
      ensures Window() == LoadedEach(w, start, Max((count + 7) / 8, 1))
    {
      if bitPos == 0 {
        pos := pos - 1;
      }
      beginEndBits := 0;
      bitPos := 0;
    }
  }

  /** A large file that starts with a string longer than what is held in memory: the search for its null leaves the
      buffer, wherever in the file the null is. */
  method StringPastTheWindow(data: seq<Byte>) returns (outcome: Outcome)
    requires |data| > 50_000_001 && 0 !in data[..50_000_000]
    ensures outcome == OutsideBuffer
  {
    var input := new BinaryInput(data, INITIAL_BUFFER_LENGTH);
    assert data[0..INITIAL_BUFFER_LENGTH] == data[..INITIAL_BUFFER_LENGTH];
    var s;
    outcome, s := input.ReadStringToNull();
  }

  /** The bit string holds what is left of the byte before position p once count bits have been used. */
  ghost predicate Unpacked(file: seq<Byte>, start: int, count: nat, p: int, bitPos: int, bitString: nat) {
    && 0 <= start < p <= |file| && 0 <= bitPos <= 8 && (bitPos == 0 <==> count == 0)
    && count == 8 * (p - start - 1) + bitPos
    && Bits(bitString, 8 - bitPos) == BytesBits(file[start..])[count..8 * (p - start)]
  }

  /** The value holds k bits from bit number count on. */
  ghost predicate BitsRead(all: seq<bool>, count: nat, k: nat, value: nat) {
    count + k <= |all| && value == Value(all[count..count + k])
  }

  lemma NothingRead(all: seq<bool>, count: nat)
    requires count <= |all|
    ensures BitsRead(all, count, 0, 0)
  {
  }

  lemma NextRead(all: seq<bool>, count: nat, k: nat, value: nat)
    requires BitsRead(all, count, k, value) && count + k < |all|
    ensures BitsRead(all, count, k + 1, Or(value, ShiftLeft(Bit(all[count + k]), k)))
  {
    var bits := all[count..count + k];
    hide Or;
    hide Value;
    OrAppends(bits, all[count + k]);
    assert bits + [all[count + k]] == all[count..count + k + 1];
  }

  lemma AllRead(all: seq<bool>, count: nat, k: nat, value: nat)
    requires BitsRead(all, count, k, value)
    ensures count + k <= |all| && value == Value(all[count..count + k])
  {
  }

  lemma NextByte(file: seq<Byte>, start: int, count: nat, q: int)
    requires 0 <= start <= q < |file| && count == 8 * (q - start)
    ensures Bits(file[q], 8) == BytesBits(file[start..])[count..8 * (q + 1 - start)]
  {
    ByteBits(file[start..], q - start);
  }

  lemma UnpackBit(file: seq<Byte>, start: int, count: nat, p: int, bitPos: int, bitString: nat)
    requires 0 <= start < p <= |file| && 0 <= bitPos < 8 && count == 8 * (p - start - 1) + bitPos
    requires Bits(bitString, 8 - bitPos) == BytesBits(file[start..])[count..8 * (p - start)]
    ensures bitString % 2 == Bit(BytesBits(file[start..])[count])
    ensures Unpacked(file, start, count + 1, p, bitPos + 1, bitString / 2)
  {
    var bits := Bits(bitString, 8 - bitPos);
    assert bits[0] == BytesBits(file[start..])[count];
    assert bits[1..] == Bits(bitString / 2, 7 - bitPos);
  }
}
