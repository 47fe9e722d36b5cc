/** A buffered output stream that dumps part of its buffer to disk when memory gets short. */
module BinaryOutputs {
  import opened Integers
  import opened BitStrings
  import opened ByteStreams

  const MEMORY := "<memory>"
  const MAX_BINARYOUTPUT_BUFFER_SIZE := 400_000_000
  const KEPT_IN_MEMORY := 10 * 1024 * 1024

  /** The largest request that never exceeds the buffer of a file as long as memory can be had. */
  const BOUNDED_REQUEST := 133_333_300

  /** Refused and OutOfMemory stand for thrown messages, AssertionFailed for a failed debugAssert, and OverlappingCopy
      for a memcpy between overlapping ranges, which the C standard leaves undefined. */
  datatype Outcome = Done | OutOfMemory | Refused | AssertionFailed | OverlappingCopy {
    /** The stream can still be used. */
    predicate Usable() {
      Done? || OutOfMemory? || Refused?
    }
  }

  /** How many of n buffered bytes are dumped. */
  function DumpSize(n: nat): nat {
    if n - KEPT_IN_MEMORY < n / 3 then n else n - KEPT_IN_MEMORY
  }

  /** What is kept of n bytes is longer than what is dumped, so that moving it to the front copies it onto itself. */
  predicate Overlaps(n: nat) {
    DumpSize(n) < n - DumpSize(n)
  }

  /** That is so in a range of 5 MB. */
  lemma OverlapsExactly(n: nat)
    ensures Overlaps(n) <==> 15 * 1024 * 1024 - 1 <= n < 20 * 1024 * 1024
  {
  }

  class BinaryOutput {
    const filename: string
    /** Whether the n-th attempt to get a larger buffer succeeds. */
    const allocator: nat -> bool
    /** Attempts made so far. */
    var attempts: nat
    var buffer: array<Byte>
    /** How much of the buffer is in use. */
    var bufferLen: int
    /** The position within the buffer. */
    var pos: int
    /** How much has been dumped to the file. */
    var alreadyWritten: int
    var committed: bool
    /** The bits of the byte being built up by WriteBits, and how many they are. */
    var bitString: int
    var bitPos: int
    var beginEndBits: int
    /** The file on disk. */
    var file: seq<Byte>

    ghost predicate Valid()
      reads this
    {
      && 0 <= bufferLen <= buffer.Length && 0 <= pos && 0 <= alreadyWritten <= |file|
      && (alreadyWritten > 0 ==> alreadyWritten == |file| && filename != MEMORY)
    }

    /** The bytes written so far, on disk and in memory. */
    ghost function Contents(): seq<Byte>
      reads this, buffer
      requires Valid()
    {
      file[..alreadyWritten] + buffer[..bufferLen]
    }

    function Position(): int
      reads this
    {
      alreadyWritten + pos
    }

    function Length(): int
      reads this
    {
      bufferLen + alreadyWritten
    }

    /** Opens a stream; a file of that name is emptied. */
    constructor (name: string, memory: nat -> bool)
      ensures Valid() && Contents() == [] && file == [] && Position() == 0 && !committed && beginEndBits == 0
              && attempts == 0
      ensures fresh(buffer) && buffer.Length == 0 && filename == name && allocator == memory
    {
      filename, allocator, attempts := name, memory, 0;
      buffer := new Byte[0];
      bufferLen, pos, alreadyWritten, committed := 0, 0, 0, false;
      bitString, bitPos, beginEndBits := 0, 0, 0;
      file := [];
    }

    /** Whatever does not concern the buffer. */
    ghost predicate SameModes(wasCommitted: bool, bits: int, n: int, begun: int)
      reads this`committed, this`bitString, this`bitPos, this`beginEndBits
    {
      committed == wasCommitted && bitString == bits && bitPos == n && beginEndBits == begun
    }

    /** The buffer is large enough for the next n bytes. */
    predicate Fits(n: int)
      reads this
    {
      pos + n <= buffer.Length
    }

    /** The size a larger buffer would be given. */
    function NewSize(n: int): int
      reads this
    {
      var needed := Max(bufferLen, pos + n);
      needed + needed / 2 + 100
    }

    /** A larger buffer is asked for before anything is dumped. */
    predicate Asks(n: int)
      reads this
    {
      filename == MEMORY || NewSize(n) < 400_000_000
    }

    /** Room for n bytes without dumping. */
    predicate HasRoom(n: int)
      reads this
    {
      Fits(n) || (Asks(n) && allocator(attempts))
    }

    ghost predicate NeverRefused() {
      forall k :: allocator(k)
    }

    /** What a writer may answer to requests of so many bytes at most: appending fails no assertion, and only a refused
        allocation is in the way in memory, or when a file is appended to in requests that are not too large. */
    ghost predicate Answered(outcome: Outcome, atEnd: bool, request: int) {
      && outcome != Refused
      && (outcome == AssertionFailed ==> !atEnd)
      && (outcome == AssertionFailed || outcome == OverlappingCopy ==> filename != MEMORY)
      && (NeverRefused() && (filename == MEMORY || (atEnd && request <= BOUNDED_REQUEST)) ==> outcome == Done)
    }

    lemma DoneIsAnswered(atEnd: bool, request: int)
      ensures Answered(Done, atEnd, request)
    {
    }

    /** With so much in the buffer, dumping to make room for n bytes moves what is kept onto itself. */
    predicate MovesOntoItself(held: nat, n: int)
      reads this
    {
      filename != MEMORY && n <= buffer.Length && DumpSize(held) <= pos <= held && Overlaps(held)
    }

    /** How a reservation of n bytes ends that had room or not: data is dumped exactly when it had none, and then
        dumping makes up for it if the stream is appended to and the buffer is large enough for the bytes alone, unless
        what is kept is moved onto itself. */
    ghost predicate Reserved(outcome: Outcome, hadRoom: bool, written: int, suffices: bool, overlapping: bool)
      reads this
    {
      && (hadRoom ==> outcome == Done && alreadyWritten == written)
      && (!hadRoom && outcome == Done ==> alreadyWritten > written)
      && (outcome == OverlappingCopy <==> !hadRoom && overlapping)
      && (suffices && filename != MEMORY ==> outcome == Done || outcome == OverlappingCopy)
    }

    /** After a reservation of n bytes at position p0 the contents reach behind them; without memory they are as
        before. */
    ghost predicate Prepared(outcome: Outcome, c0: seq<Byte>, p0: int, n: int)
      reads this, buffer
    {
      && (outcome.Usable() ==> Valid() && Position() == p0)
      && (outcome == Done ==> pos + n <= bufferLen && Extended(c0, Contents(), p0 + n))
      && (outcome == OutOfMemory ==> Contents() == c0)
    }

    /** Sees to it that the next bytes have room in the buffer. */
    method ReserveBytes(bytes: int) returns (outcome: Outcome)
      requires Valid() && bytes > 0
      modifies this, buffer
      ensures Prepared(outcome, old(Contents()), old(Position()), bytes)
      ensures Answered(outcome, old(pos) == old(bufferLen), bytes)
      ensures Reserved(outcome, old(HasRoom(bytes)), old(alreadyWritten),
                       old(pos) == old(bufferLen) && bytes <= old(buffer.Length),
                       old(MovesOntoItself(bufferLen, bytes)))
      ensures attempts >= if old(Fits(bytes)) || !old(Asks(bytes)) then old(attempts) else old(attempts) + 1
      ensures SameModes(old(committed), old(bitString), old(bitPos), old(beginEndBits))
      ensures buffer == old(buffer) || fresh(buffer)
      decreases bufferLen, 2
    {
      var oldBufferLen := bufferLen;
      bufferLen := Max(bufferLen, pos + bytes);
      outcome := Done;
      if bufferLen > buffer.Length {
        outcome := ReallocBuffer(bytes, oldBufferLen);
      } else {
        assert buffer[..oldBufferLen] == buffer[..bufferLen][..oldBufferLen];
        BufferExtended(buffer[..oldBufferLen], buffer[..bufferLen], pos + bytes);
        ExtendedBehind(file[..alreadyWritten], buffer[..oldBufferLen], buffer[..bufferLen], pos + bytes);
      }
    }

    method ReallocBuffer(bytes: int, oldBufferLen: int) returns (outcome: Outcome)
      requires bytes > 0 && 0 <= oldBufferLen <= buffer.Length && 0 <= pos && 0 <= alreadyWritten <= |file|
      requires alreadyWritten > 0 ==> alreadyWritten == |file| && filename != MEMORY
      requires bufferLen == Max(oldBufferLen, pos + bytes) > buffer.Length
      modifies this, buffer
      ensures Prepared(outcome, old(file[..alreadyWritten] + buffer[..oldBufferLen]), old(Position()), bytes)
      ensures Answered(outcome, old(pos) == oldBufferLen, bytes)
      ensures Reserved(outcome, old(HasRoom(bytes)), old(alreadyWritten),
                       old(pos) == oldBufferLen && bytes <= old(buffer.Length),
                       old(MovesOntoItself(oldBufferLen, bytes)))
      ensures attempts >= if old(Asks(bytes)) then old(attempts) + 1 else old(attempts)
      ensures SameModes(old(committed), old(bitString), old(bitPos), old(beginEndBits))
      ensures buffer == old(buffer) || fresh(buffer)
      decreases oldBufferLen, 1
    {
      hide Answered;
      hide Prepared;
      hide Overlaps;
      hide DumpSize;
      DoneIsAnswered(pos == oldBufferLen, bytes);
      var newBufferLen := bufferLen + bufferLen / 2 + 100;
      var newBuffer: array?<Byte> := null;
      if filename == MEMORY || newBufferLen < MAX_BINARYOUTPUT_BUFFER_SIZE {
        newBuffer := Reallocate(newBufferLen);
      }
      if newBuffer == null {
        // Back out, and dump data instead.
        bufferLen := oldBufferLen;
        assert Contents() == old(file[..alreadyWritten] + buffer[..oldBufferLen]) && Position() == old(Position());
        outcome := ReserveBytesWhenOutOfMemory(bytes);
      } else {
        Adopt(newBuffer, bytes, oldBufferLen);
        outcome := Done;
      }
    }

    /** Takes over a larger copy of the buffer. */
    method Adopt(newBuffer: array<Byte>, ghost bytes: int, ghost oldBufferLen: int)
      requires bytes > 0 && 0 <= oldBufferLen <= buffer.Length && 0 <= pos && 0 <= alreadyWritten <= |file|
      requires alreadyWritten > 0 ==> alreadyWritten == |file| && filename != MEMORY
      requires buffer.Length < bufferLen == Max(oldBufferLen, pos + bytes) <= newBuffer.Length
      requires newBuffer[..buffer.Length] == buffer[..]
      modifies this`buffer
      ensures buffer == newBuffer
              && Prepared(Done, old(file[..alreadyWritten] + buffer[..oldBufferLen]), Position(), bytes)
    {
      hide Extended;
      ghost var held := buffer[..oldBufferLen];
      assert newBuffer[..bufferLen][..oldBufferLen] == newBuffer[..buffer.Length][..oldBufferLen] == held;
      buffer := newBuffer;
      BufferExtended(held, buffer[..bufferLen], pos + bytes);
      ExtendedBehind(file[..alreadyWritten], held, buffer[..bufferLen], pos + bytes);
    }

    /** A larger copy of the buffer, or null when there is no memory for it. */
    method Reallocate(n: int) returns (copy: array?<Byte>)
      requires n >= buffer.Length
      modifies this`attempts
      ensures copy != null <==> allocator(old(attempts))
      ensures copy != null ==> fresh(copy) && copy.Length == n && copy[..buffer.Length] == buffer[..]
      ensures attempts == old(attempts) + 1
    {
      attempts := attempts + 1;
      if !allocator(attempts - 1) {
        return null;
      }
      copy := new Byte[n];
      forall i | 0 <= i < buffer.Length {
        copy[i] := buffer[i];
      }
    }

    method ReserveBytesWhenOutOfMemory(bytes: int) returns (outcome: Outcome)
      requires Valid() && bytes > 0 && pos + bytes > buffer.Length
      requires NeverRefused() ==> !Asks(bytes)
      modifies this, buffer
      ensures Prepared(outcome, old(Contents()), old(Position()), bytes)
      ensures Answered(outcome, old(pos) == old(bufferLen), bytes)
      ensures Reserved(outcome, false, old(alreadyWritten), old(pos) == old(bufferLen) && bytes <= old(buffer.Length),
                       old(MovesOntoItself(bufferLen, bytes)))
      ensures attempts >= old(attempts)
      ensures SameModes(old(committed), old(bitString), old(bitPos), old(beginEndBits))
      ensures buffer == old(buffer) || fresh(buffer)
      decreases bufferLen, 0
    {
      if filename == MEMORY || bytes > buffer.Length {
        return OutOfMemory;
      }
      outcome := Spill();
      if outcome == Done {
        outcome := ReserveBytes(bytes);
      }
    }

    /** Dumps the buffer, or all but its last 10 MB if that is at least a third of it, so that one can seek back a
        little. An assertion fails exactly when the position lies before what is dumped or after the end. */
    method Spill() returns (outcome: Outcome)
      requires Valid() && filename != MEMORY && (bufferLen > 0 || pos > 0)
      modifies this, buffer
      ensures outcome == AssertionFailed <==> !(DumpSize(old(bufferLen)) <= old(pos) <= old(bufferLen))
      ensures outcome == OverlappingCopy <==> outcome != AssertionFailed && Overlaps(old(bufferLen))
      ensures outcome == Done || outcome == AssertionFailed || outcome == OverlappingCopy
      ensures outcome == Done ==> Valid() && Contents() == old(Contents()) && Position() == old(Position())
      ensures outcome == Done ==> bufferLen < old(bufferLen) && (bufferLen == 0 || bufferLen == KEPT_IN_MEMORY)
      ensures outcome == Done ==>
                alreadyWritten > old(alreadyWritten) && (pos == bufferLen <==> old(pos) == old(bufferLen))
      ensures attempts == old(attempts)
      ensures buffer == old(buffer) && SameModes(old(committed), old(bitString), old(bitPos), old(beginEndBits))
    {
      var writeBytes := bufferLen - KEPT_IN_MEMORY;
      if writeBytes < bufferLen / 3 {
        // Hardly worth a dump; leave nothing behind
        writeBytes := bufferLen;
      }
      if writeBytes == 0 {
        return AssertionFailed;
      }
      ghost var held := buffer[..bufferLen];
      assert held[..writeBytes] == buffer[..writeBytes] && held[writeBytes..] == buffer[writeBytes..bufferLen];
      PartDumped(file, alreadyWritten, held, writeBytes);
      file := (if alreadyWritten > 0 then file else []) + buffer[..writeBytes];
      alreadyWritten := alreadyWritten + writeBytes;
      bufferLen := bufferLen - writeBytes;
      pos := pos - writeBytes;
      if pos < 0 || pos > bufferLen {
        return AssertionFailed;
      }
      if writeBytes < bufferLen {
        return OverlappingCopy;
      }
      Shift(writeBytes);
      assert buffer[..bufferLen] == held[writeBytes..];
      outcome := Done;
    }

    /** Copies what follows the first n bytes to the front, which it must not overlap. */
    method Shift(n: int)
      requires 0 <= bufferLen <= n && n + bufferLen <= buffer.Length
      modifies buffer
      ensures buffer[..bufferLen] == old(buffer[n..n + bufferLen])
    {
      forall i | 0 <= i < bufferLen {
        buffer[i] := buffer[i + n];
      }
    }

    /** Copies bytes to the position. */
    method Store(b: seq<Byte>)
      requires Valid() && pos + |b| <= bufferLen
      modifies buffer
      ensures Valid() && Overwritten(old(Contents()), Position(), b, Contents())
    {
      forall i | 0 <= i < |b| {
        buffer[pos + i] := b[i];
      }
      forall i | 0 <= i < |b|
        ensures buffer[..bufferLen][pos..pos + |b|][i] == b[i]
      {
        assert buffer[..bufferLen][pos + i] == buffer[pos + i] == b[i];
      }
      assert buffer[..bufferLen][pos..pos + |b|] == b;
      OverwrittenBehind(file[..alreadyWritten], old(buffer[..bufferLen]), pos, b, buffer[..bufferLen]);
    }

    method WriteBytes(b: seq<Byte>) returns (outcome: Outcome)
      requires Valid() && |b| > 0
      modifies this, buffer
      ensures outcome.Usable() ==> Valid()
      ensures outcome == Done ==> Overwritten(old(Contents()), old(Position()), b, Contents())
      ensures outcome == Done ==> Position() == old(Position()) + |b|
      ensures outcome == OutOfMemory ==> Contents() == old(Contents()) && Position() == old(Position())
      ensures Answered(outcome, old(pos) == old(bufferLen), |b|)
      ensures Reserved(outcome, old(HasRoom(|b|)), old(alreadyWritten),
                       old(pos) == old(bufferLen) && |b| <= old(buffer.Length),
                       old(MovesOntoItself(bufferLen, |b|)))
      ensures attempts >= if old(Fits(|b|)) || !old(Asks(|b|)) then old(attempts) else old(attempts) + 1
      ensures SameModes(old(committed), old(bitString), old(bitPos), old(beginEndBits))
      ensures buffer == old(buffer) || fresh(buffer)
    {
      hide Extended;
      hide Overwritten;
      ghost var c0 := Contents();
      outcome := ReserveBytes(|b|);
      if outcome == Done {
        ghost var c1 := Contents();
        Store(b);
        OverwrittenExtended(c0, c1, Position(), b, Contents());
        pos := pos + |b|;
      }
    }

    // ---------- positions and lengths ----------

    /** Meant to set the length to n; it reserves from the position instead of from the end. */
    method SetLength(n: int) returns (outcome: Outcome)
      requires Valid()
      modifies this, buffer
      ensures outcome == Refused <==> n < old(alreadyWritten)
      ensures outcome.Usable() ==> Valid()
      ensures outcome == Refused || outcome == OutOfMemory ==>
                Contents() == old(Contents()) && Position() == old(Position())
      ensures outcome == Done && n < old(Length()) ==> Contents() == old(Contents()) && Position() == n
      ensures outcome == Done && n >= old(Length()) ==>
                Position() == old(Position())
                && Extended(old(Contents()), Contents(),
                            if n > old(Length()) then Position() + n - old(Length()) else n)
      ensures outcome == Done ==>
                (Length() == n <==> n == old(Length()) || (n > old(Length()) && old(pos) == old(bufferLen)))
      ensures n > old(Length()) ==>
                Reserved(outcome, old(HasRoom(n - Length())), old(alreadyWritten),
                         old(pos) == old(bufferLen) && n - old(Length()) <= old(buffer.Length),
                         old(MovesOntoItself(bufferLen, n - Length())))
      ensures old(alreadyWritten) <= n <= old(Length()) ==> outcome == Done && alreadyWritten == old(alreadyWritten)
      ensures outcome == AssertionFailed ==> old(pos) != old(bufferLen) && filename != MEMORY
      ensures SameModes(old(committed), old(bitString), old(bitPos), old(beginEndBits))
      ensures buffer == old(buffer) || fresh(buffer)
    {
      outcome := Done;
      var m := n - alreadyWritten;
      if m < 0 {
        return Refused;
      }
      if m < bufferLen {
        pos := m;
      }
      if m > bufferLen {
        outcome := ReserveBytes(m - bufferLen);
      }
    }

    /** Sets the position to p, if p is within the stream or lengthening it to p needs no dump. Otherwise the position
        ends up too far, by as much as has been dumped. */
    method SetPosition(p: int) returns (outcome: Outcome)
      requires Valid()
      modifies this, buffer
      ensures outcome.Usable() ==> Valid()
      ensures outcome == Refused <==> p < old(alreadyWritten)
      ensures outcome == Refused || outcome == OutOfMemory ==>
                Contents() == old(Contents()) && Position() == old(Position())
      ensures outcome == Done ==> old(Contents()) <= Contents()
      ensures old(alreadyWritten) <= p <= old(Length()) ==> outcome == Done && Contents() == old(Contents())
      ensures outcome == Done ==> (Position() == p <==> p <= old(Length()) || old(HasRoom(p - Length())))
      ensures outcome == Done ==> Position() == p + alreadyWritten - old(alreadyWritten) >= p
      ensures p > old(Length()) && old(pos) == old(bufferLen) && p - old(Length()) <= old(buffer.Length)
              && filename != MEMORY ==>
                outcome == Done || outcome == OverlappingCopy
      ensures outcome == OverlappingCopy <==>
                p > old(Length()) && !old(HasRoom(p - Length())) && old(MovesOntoItself(bufferLen, p - Length()))
      ensures outcome == AssertionFailed ==> old(pos) != old(bufferLen) && filename != MEMORY
      ensures buffer == old(buffer) || fresh(buffer)
    {
      outcome := Done;
      var q := p - alreadyWritten;
      if q > bufferLen {
        outcome := SetLength(p);
        if outcome != Done {
          return;
        }
      }
      if q < 0 {
        return Refused;
      }
      pos := q;
    }

    /** Writes the buffer to disk. The buffer stays, so that a second call, which fails an assertion, appends it once
        more where assertions are off. */
    method Commit() returns (outcome: Outcome)
      requires Valid() && beginEndBits == 0
      modifies this
      ensures committed && outcome == if old(committed) then AssertionFailed else Done
      ensures file == old(Contents())
      ensures buffer == old(buffer) && beginEndBits == 0 && bufferLen == old(bufferLen) <= buffer.Length
      ensures filename != MEMORY ==> Valid() && Contents() == file + buffer[..bufferLen]
    {
      outcome := if committed then AssertionFailed else Done;
      committed := true;
      file := (if alreadyWritten > 0 then file else []) + buffer[..bufferLen];
      alreadyWritten := alreadyWritten + bufferLen;
      assert file[..|file|] == file;
    }

    /** Writes the buffer to memory. */
    method CommitToMemory() returns (out: seq<Byte>)
      requires Valid() && !committed
      modifies this`committed
      ensures committed && (alreadyWritten == 0 ==> out == Contents())
    {
      committed := true;
      out := buffer[..bufferLen];
      assert alreadyWritten == 0 ==> file[..alreadyWritten] == [];
    }

    // ---------- bits ----------

    /** Since BeginBits at position start, when the contents were c0, these bits have been written: whole
        bytes of them to the stream, the rest to the bit string. */
    ghost predicate Packing(c0: seq<Byte>, start: int, bits: seq<bool>, out: seq<Byte>)
      reads this, buffer
    {
      && Valid() && beginEndBits == 1 && 0 <= start && Position() == start + |out|
      && (if out == [] then Contents() == c0 else Overwritten(c0, start, out, Contents()))
      && Packed(bits, out, bitPos, bitString)
    }

    method BeginBits()
      requires Valid() && beginEndBits == 0
      modifies this`bitString, this`bitPos, this`beginEndBits
      ensures Packing(old(Contents()), old(Position()), [], [])
    {
      bitString, bitPos, beginEndBits := 0, 0, 1;
    }

    /** Writes the byte built up so far. */
    method FlushBits(ghost c0: seq<Byte>, ghost start: int, ghost out: seq<Byte>, b: Byte) returns (outcome: Outcome)
      requires Valid() && 0 <= start && Position() == start + |out|
      requires if out == [] then Contents() == c0 else Overwritten(c0, start, out, Contents())
      modifies this, buffer
      ensures outcome == Done ==>
                Valid() && Position() == start + |out| + 1 && Overwritten(c0, start, out + [b], Contents())
      ensures SameModes(old(committed), old(bitString), old(bitPos), old(beginEndBits))
      ensures buffer == old(buffer) || fresh(buffer)
      ensures Answered(outcome, start == |c0|, 1)
    {
      ghost var c1 := Contents();
      assert start == |c0| ==> pos == bufferLen;
      outcome := WriteBytes([b]);
      if outcome == Done {
        if out == [] {
          assert out + [b] == [b];
        } else {
          OverwrittenTwice(c0, start, out, c1, [b], Contents());
        }
      }
    }

    method WriteBit(ghost c0: seq<Byte>, ghost start: int, ghost bits: seq<bool>, ghost out: seq<Byte>, value: nat)
      returns (outcome: Outcome, ghost out': seq<Byte>)
      requires Packing(c0, start, bits, out)
      modifies this, buffer
      ensures outcome == Done ==> Packing(c0, start, bits + [value % 2 == 1], out')
      ensures buffer == old(buffer) || fresh(buffer)
      ensures Answered(outcome, start == |c0|, 1)
    {
      ghost var b := value % 2 == 1;
      assert 0 <= bitPos < 8 && bitString >= 0;
      DoneIsAnswered(start == |c0|, 1);
      hide Packed;
      hide Answered;
      hide Or;
      hide ShiftLeft;
      hide Bit;
      hide BytesBits;
      hide Overwritten;
      PackBit(bits, out, bitPos, bitString, b);
      bitString := Or(bitString, ShiftLeft(value % 2, bitPos));
      bitPos := bitPos + 1;
      if bitPos <= 7 {
        return Done, out;
      }
      out' := out + [bitString];
      outcome := FinishByte(c0, start, bits + [b], out);
    }

    /** Writes the byte built up and starts the next one. */
    method FinishByte(ghost c0: seq<Byte>, ghost start: int, ghost bits: seq<bool>, ghost out: seq<Byte>)
      returns (outcome: Outcome)
      requires Valid() && 0 <= start && Position() == start + |out| && beginEndBits == 1
      requires if out == [] then Contents() == c0 else Overwritten(c0, start, out, Contents())
      requires 0 <= bitString < 256 && Packed(bits, out + [bitString], 0, 0)
      modifies this, buffer
      ensures outcome == Done ==> Packing(c0, start, bits, out + [old(bitString)])
      ensures buffer == old(buffer) || fresh(buffer)
      ensures Answered(outcome, start == |c0|, 1)
    {
      hide Packed;
      hide Overwritten;
      outcome := FlushBits(c0, start, out, bitString);
      bitString, bitPos := 0, 0;
    }

    method WriteBits(value: nat, numBits: nat, ghost c0: seq<Byte>, ghost start: int, ghost bits: seq<bool>,
                     ghost out: seq<Byte>)
      returns (outcome: Outcome, ghost out': seq<Byte>)
      requires Packing(c0, start, bits, out)
      modifies this, buffer
      ensures outcome == Done ==> Packing(c0, start, bits + Bits(value, numBits), out')
      ensures Answered(outcome, start == |c0|, 1)
      ensures buffer == old(buffer) || fresh(buffer)
    {
      var v, n := value, numBits;
      outcome, out' := Done, out;
      ghost var all := bits;
      hide *;
      DoneIsAnswered(start == |c0|, 1);
      while n > 0
        invariant buffer == old(buffer) || fresh(buffer)
        invariant outcome == Done && all + Bits(v, n) == bits + Bits(value, numBits)
        invariant Packing(c0, start, all, out')
        decreases n
      {
        outcome, out' := WriteBit(c0, start, all, out', v);
        if outcome != Done {
          return;
        }
        NextBit(all, v, n);
        all := all + [v % 2 == 1];
        v, n := v / 2, n - 1;
      }
      NoBits(all, v);
    }

    /** Writes the bits that do not fill a byte, with zeros behind them. */
    method EndBits(ghost c0: seq<Byte>, ghost start: int, ghost bits: seq<bool>, ghost out: seq<Byte>)
      returns (outcome: Outcome, ghost out': seq<Byte>)
      requires Packing(c0, start, bits, out)
      modifies this, buffer
      ensures outcome == Done ==> Valid() && beginEndBits == 0 && Position() == start + |out'|
      ensures outcome == Done ==> if out' == [] then Contents() == c0 else Overwritten(c0, start, out', Contents())
      ensures outcome == Done ==> PackedUp(bits, out')
      ensures Answered(outcome, start == |c0|, 1)
      ensures buffer == old(buffer) || fresh(buffer)
    {
      outcome, out' := Done, out;
      PackRest(bits, out, bitPos, bitString);
      hide Packed;
      hide PackedUp;
      hide Overwritten;
      if bitPos > 0 {
        out' := out + [bitString];
        outcome := FlushBits(c0, start, out, bitString);
      }
      bitString, bitPos, beginEndBits := 0, 0, 0;
    }

    // ---------- words and strings ----------

    method WriteUInt8(i: Byte) returns (outcome: Outcome)
      requires Valid()
      modifies this, buffer
      ensures Wrote(outcome, old(Contents()), old(Position()), [i])
      ensures SameModes(old(committed), old(bitString), old(bitPos), old(beginEndBits))
      ensures buffer == old(buffer) || fresh(buffer)
    {
      outcome := WriteBytes([i]);
    }

    method WriteUInt32(u: nat, swapBytes: bool) returns (outcome: Outcome)
      requires Valid() && u < 0x1_0000_0000
      modifies this, buffer
      ensures Wrote(outcome, old(Contents()), old(Position()), WordBytes(u, swapBytes))
      ensures outcome == Done ==>
                var p, c := old(Position()), Contents();
                && c[p + if swapBytes then 3 else 0] == u % 256
                && c[p + if swapBytes then 2 else 1] == u / 256 % 256
                && c[p + if swapBytes then 1 else 2] == u / 65_536 % 256
                && c[p + if swapBytes then 0 else 3] == u / 16_777_216 % 256
      ensures SameModes(old(committed), old(bitString), old(bitPos), old(beginEndBits))
      ensures buffer == old(buffer) || fresh(buffer)
    {
      var convert := [u % 256, u / 0x100 % 256, u / 0x1_0000 % 256, u / 0x100_0000 % 256];
      outcome := WriteBytes(if swapBytes then [convert[3], convert[2], convert[1], convert[0]] else convert);
      if outcome == Done {
        WordWritten(old(Contents()), old(Position()), u, swapBytes, Contents());
      }
    }

    method WriteString(s: seq<Byte>) returns (outcome: Outcome)
      requires Valid()
      modifies this, buffer
      ensures Wrote(outcome, old(Contents()), old(Position()), CString(s) + [0])
      ensures SameModes(old(committed), old(bitString), old(bitPos), old(beginEndBits))
      ensures buffer == old(buffer) || fresh(buffer)
    {
      outcome := WriteBytes(CString(s) + [0]);
    }

    /** A string with its null, and one more zero if their number is odd. */
    method WriteStringEven(s: seq<Byte>) returns (outcome: Outcome)
      requires Valid()
      modifies this, buffer
      ensures outcome == Done ==> Wrote(outcome, old(Contents()), old(Position()), EvenBytes(s))
      ensures Answered(outcome, old(Position()) == |old(Contents())|, |CString(s)| + 1)
      ensures SameModes(old(committed), old(bitString), old(bitPos), old(beginEndBits))
      ensures buffer == old(buffer) || fresh(buffer)
    {
      ghost var c0, p0, a := Contents(), Position(), CString(s) + [0];
      hide CString;
      hide Overwritten;
      hide EvenBytes;
      Padding(s);
      outcome := WriteBytes(CString(s) + [0]);
      if outcome == Done && (|CString(s)| + 1) % 2 == 1 {
        outcome := WritePadding(c0, p0, a);
      }
    }

    /** A zero behind the bytes a that have been written. */
    method WritePadding(ghost c0: seq<Byte>, ghost p0: int, ghost a: seq<Byte>) returns (outcome: Outcome)
      requires Valid() && Overwritten(c0, p0, a, Contents()) && Position() == p0 + |a|
      modifies this, buffer
      ensures outcome == Done ==> Wrote(outcome, c0, p0, a + [0])
      ensures Answered(outcome, p0 == |c0|, 1)
      ensures SameModes(old(committed), old(bitString), old(bitPos), old(beginEndBits))
      ensures buffer == old(buffer) || fresh(buffer)
    {
      hide Overwritten;
      ghost var c1 := Contents();
      AtEndAfter(c0, p0, a, c1);
      outcome := WriteUInt8(0);
      if outcome == Done {
        OverwrittenTwice(c0, p0, a, c1, [0], Contents());
      }
    }

    /** A string behind the word that counts its bytes. */
    method WriteString32(s: seq<Byte>, swapBytes: bool) returns (outcome: Outcome)
      requires Valid() && |CString(s)| + 1 < 0x1_0000_0000
      modifies this, buffer
      ensures outcome == Done ==> Wrote(outcome, old(Contents()), old(Position()), String32Bytes(s, swapBytes))
      ensures Answered(outcome, old(Position()) == |old(Contents())|, Max(4, |CString(s)| + 1))
      ensures SameModes(old(committed), old(bitString), old(bitPos), old(beginEndBits))
      ensures buffer == old(buffer) || fresh(buffer)
    {
      ghost var c0, p0 := Contents(), Position();
      outcome := WriteUInt32(|CString(s)| + 1, swapBytes);
      if outcome == Done {
        ghost var c1 := Contents();
        outcome := WriteString(s);
        if outcome == Done {
          OverwrittenTwice(c0, p0, WordBytes(|CString(s)| + 1, swapBytes), c1, CString(s) + [0], Contents());
        }
      }
    }

    /** A write of the bytes b at position p0 into the contents c0 has succeeded or has not been possible. */
    ghost predicate Wrote(outcome: Outcome, c0: seq<Byte>, p0: int, b: seq<Byte>)
      reads this, buffer
    {
      && Answered(outcome, p0 == |c0|, |b|)
      && (outcome == Done ==> Valid() && Overwritten(c0, p0, b, Contents()) && Position() == p0 + |b|)
      && (outcome == OutOfMemory ==> Valid() && Contents() == c0 && Position() == p0)
    }
  }

  /** The file after a dump, and what is left in the buffer. */
  lemma PartDumped(file: seq<Byte>, written: nat, held: seq<Byte>, n: nat)
    requires written <= |file| && (written > 0 ==> written == |file|) && n <= |held|
    ensures var file' := (if written > 0 then file else []) + held[..n];
      |file'| == written + n && file'[..written + n] == file' && file' + held[n..] == file[..written] + held
  {
    assert held == held[..n] + held[n..];
  }

  lemma OverwrittenBehind(written: seq<Byte>, before: seq<Byte>, p: nat, b: seq<Byte>, after: seq<Byte>)
    requires p + |b| <= |before| == |after| && Overwritten(before, p, b, after)
    ensures Overwritten(written + before, |written| + p, b, written + after)
  {
    assert (written + after)[|written| + p..|written| + p + |b|] == after[p..p + |b|];
  }

  lemma Padding(s: seq<Byte>)
    ensures var a := CString(s) + [0]; EvenBytes(s) == if |a| % 2 == 1 then a + [0] else a
  {
    hide CString;
  }

  /** What was appended ends where the contents end. */
  lemma AtEndAfter(before: seq<Byte>, p: int, b: seq<Byte>, after: seq<Byte>)
    requires Overwritten(before, p, b, after)
    ensures p == |before| ==> |after| == p + |b|
  {
  }

  lemma ExtendedBehind(written: seq<Byte>, before: seq<Byte>, after: seq<Byte>, n: int)
    requires Extended(before, after, n)
    ensures Extended(written + before, written + after, |written| + n)
  {
  }

  lemma OverwrittenExtended(before: seq<Byte>, extended: seq<Byte>, p: int, b: seq<Byte>, after: seq<Byte>)
    requires Extended(before, extended, p + |b|) && Overwritten(extended, p, b, after)
    ensures Overwritten(before, p, b, after)
  {
  }

  /** A larger buffer that keeps what it held. */
  lemma BufferExtended(before: seq<Byte>, after: seq<Byte>, n: int)
    requires |after| == Max(|before|, n) && after[..|before|] == before
    ensures Extended(before, after, n)
  {
  }

  // ---------- where the stream does not do what its documentation says ----------

  /** A stream of which nothing has been dumped holds its bytes twice after two commits. */
  method CommitTwice(out: BinaryOutput) returns (first: Outcome, second: Outcome)
    requires out.Valid() && out.beginEndBits == 0 && !out.committed && out.alreadyWritten == 0 && out.filename != MEMORY
    modifies out
    ensures first == Done && second == AssertionFailed && out.file == old(out.Contents()) + old(out.Contents())
  {
    ghost var c := out.Contents();
    assert c == out.buffer[..out.bufferLen];
    first := out.Commit();
    second := out.Commit();
  }

  /** Three bytes written, and the position set back to the second: setting the length to 5 leaves it at 3. */
  method SetLengthFallsShort(memory: nat -> bool) returns (outcome: Outcome, length: int)
    requires forall k :: memory(k)
    ensures outcome == Done && length == 3
  {
    var out := new BinaryOutput(MEMORY, memory);
    outcome := out.WriteBytes([1, 2, 3]);
    outcome := out.SetPosition(1);
    assert out.Length() == 3;
    ghost var c := out.Contents();
    outcome := out.SetLength(5);
    assert |out.Contents()| == 3;
    length := out.Length();
  }

  /** One byte written, no more memory to be had, and the position set as far behind the end as the buffer is large:
      the byte is dumped, and the position ends up one too far. */
  method SetPositionGoesTooFar() returns (outcome: Outcome, target: int, position: int)
    ensures outcome == Done && position > target
  {
    var out := new BinaryOutput("file", k => k == 0);
    outcome := out.WriteBytes([1]);
    assert out.Length() == 1 && out.pos == 1;
    target := out.Length() + out.buffer.Length;
    assert out.attempts >= 1 && !out.HasRoom(target - out.Length());
    outcome := out.SetPosition(target);
    position := out.Position();
  }

  /** 16 MB written, no more memory to be had, and as many bytes to be written as the buffer has: 6 MB are dumped, and
      the 10 MB that are kept are copied onto themselves. */
  method DumpOverlaps() returns (outcome: Outcome)
    ensures outcome == OverlappingCopy
  {
    var out := new BinaryOutput("file", k => k == 0);
    outcome := out.WriteBytes(Zeroed(16 * 1024 * 1024));
    assert out.pos == out.bufferLen == 16 * 1024 * 1024;
    outcome := out.WriteBytes(Zeroed(out.buffer.Length));
  }

  function Zeroed(n: nat): seq<Byte> {
    seq(n, _ => 0)
  }

  /** The bits, filled up with zeros to whole bytes. */
  ghost predicate PackedUp(bits: seq<bool>, out: seq<Byte>) {
    && 8 * |out| - 8 < |bits| <= 8 * |out|
    && BytesBits(out) == bits + Zeros(8 * |out| - |bits|)
  }

  lemma PackRest(bits: seq<bool>, out: seq<Byte>, bitPos: int, bitString: int)
    requires Packed(bits, out, bitPos, bitString)
    ensures bitPos == 0 ==> PackedUp(bits, out)
    ensures bitPos > 0 ==> 0 <= bitString < 256 && PackedUp(bits, out + [bitString])
  {
    hide BytesBits;
    hide Bits;
    hide Value;
    var tail := bits[8 * |out|..];
    assert bits == bits[..8 * |out|] + tail;
    if bitPos == 0 {
      assert bits + Zeros(0) == bits == bits[..8 * |out|];
    } else {
      PaddedByte(tail);
      BytesBitsAppend(out, bitString);
      assert bits[..8 * |out|] + (tail + Zeros(8 - |tail|)) == bits + Zeros(8 - |tail|);
    }
  }

  lemma NextBit(written: seq<bool>, v: nat, n: nat)
    requires n > 0
    ensures written + Bits(v, n) == written + [v % 2 == 1] + Bits(v / 2, n - 1)
  {
  }

  lemma NoBits(written: seq<bool>, v: nat)
    ensures written + Bits(v, 0) == written
  {
  }

  /** The bits are those of whole bytes and fewer than eight in the bit string. */
  ghost predicate Packed(bits: seq<bool>, out: seq<Byte>, bitPos: int, bitString: int) {
    && 0 <= bitPos < 8 && |bits| == 8 * |out| + bitPos
    && BytesBits(out) == bits[..8 * |out|] && bitString == Value(bits[8 * |out|..])
  }

  lemma PackBit(bits: seq<bool>, out: seq<Byte>, bitPos: int, bitString: int, b: bool)
    requires Packed(bits, out, bitPos, bitString)
    ensures var s := Or(bitString, ShiftLeft(Bit(b), bitPos));
      && (bitPos < 7 ==> Packed(bits + [b], out, bitPos + 1, s))
      && (bitPos == 7 ==> s < 256 && Packed(bits + [b], out + [s], 0, 0))
  {
    var tail := bits[8 * |out|..];
    OrAppends(tail, b);
    assert (bits + [b])[8 * |out|..] == tail + [b];
    if bitPos == 7 {
      FullByte(bits + [b], out);
    }
  }

  /** Eight pending bits make the next byte. */
  lemma FullByte(bits: seq<bool>, out: seq<Byte>)
    requires |bits| == 8 * |out| + 8 && BytesBits(out) == bits[..8 * |out|]
    ensures 0 <= Value(bits[8 * |out|..]) < 256
    ensures BytesBits(out + [Value(bits[8 * |out|..])]) == bits
  {
    hide *;
    var tail := bits[8 * |out|..];
    PaddedByte(tail);
    BytesBitsAppend(out, Value(tail));
    assert tail + Zeros(0) == tail;
    assert bits == bits[..8 * |out|] + tail;
  }
}
