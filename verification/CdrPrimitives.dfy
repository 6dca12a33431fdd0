/**
 The cursors of the Rust crate: a writer that appends to a buffer, a byte vector
 or a list of slices, and a reader that moves through a byte slice. Alignment is
 relative to where the writer started and to the start of the input.
 */
module CdrPrimitives {
  import opened CdrWire
  import opened CdrLayout
  import opened CdrTypes
  import opened CdrBuffers
  import opened CdrBulk

  datatype Result<+T> = Success(value: T) | Failure(error: Error)

  const USIZE_MAX: nat := 0xFFFF_FFFF_FFFF_FFFF

  class CdrWriter {
    var buffer: Buffer
    const sliced: bool
    const start: nat
    const wire: Wire

    ghost predicate Valid()
      reads this
    {
      start <= buffer.Len() && buffer.Slices? == sliced
    }

    // Everything in the buffer, also what was there before the writer.
    ghost function Contents(): Bytes
      reads this
    {
      buffer.Contents()
    }

    // The buffer is buf0 with the atoms placed behind it.
    ghost predicate Grew(buf0: Bytes, atoms: seq<Atom>)
      reads this
    {
      start <= |buf0| <= |Contents()| && Appended(buf0, |buf0| - start, atoms, Contents(), |Contents()| - start)
    }

    constructor (buffer: Buffer, wire: Wire)
      ensures Valid() && this.buffer == buffer && start == buffer.Len() && this.wire == wire
    {
      this.buffer := buffer;
      sliced := buffer.Slices?;
      start := buffer.Len();
      this.wire := wire;
    }

    function Position(): nat
      requires start <= buffer.Len()
      reads this
    {
      buffer.Len() - start
    }

    method Align(alignment: Boundary)
      requires Valid()
      modifies this`buffer
      ensures Valid() && Contents() == old(Contents()) + Zeros(Padding(old(Position()), alignment))
    {
      var modulo := Position() % alignment;
      if modulo != 0 {
        buffer := buffer.Extend(Zeros(alignment - modulo));
      }
    }

    // write_u8 to write_f64: align to the width, then the bytes in the writer's order.
    method WriteNumber(v: nat, n: Boundary)
      requires Valid()
      modifies this`buffer
      ensures Valid() && Grew(old(Contents()), [Word(wire.order, v, n)])
    {
      ghost var buf0 := Contents();
      Align(n);
      ghost var buf1 := Contents();
      buffer := buffer.Extend(NumberBytes(wire.order, v, n));
      AppendWord(buf0, Word(wire.order, v, n), buf1, Contents(), start);
    }

    // write_sequence_length, and every other 32-bit prefix.
    method WriteLength(len: nat)
      requires Valid()
      modifies this`buffer
      ensures Valid() && Grew(old(Contents()), [LengthWord(wire, len)])
    {
      WriteNumber(len % TWO_TO_THE_32, 4);
    }

    // write_bool pushes one byte; its boundary is one.
    method WriteBool(v: bool)
      requires Valid()
      modifies this`buffer
      ensures Valid() && Grew(old(Contents()), [Word(wire.order, if v then 1 else 0, 1)])
    {
      ghost var buf0 := Contents();
      buffer := buffer.Push(if v then 1 else 0);
      OneByte(wire.order, if v then 1 else 0);
      AppendRaw(buf0, [], buf0, [if v then 1 else 0], Contents(), start);
    }

    method WriteString(s: Bytes)
      requires Valid()
      modifies this`buffer
      ensures Valid() && Grew(old(Contents()), Flat(wire, VString(s), TString))
    {
      hide Appended, Word;
      assert Flat(wire, VString(s), TString) == [LengthWord(wire, |s| + 1)] + [Atom(1, s + [0])];
      var byteCount := |s| % TWO_TO_THE_32 + 1;
      assert byteCount % TWO_TO_THE_32 == (|s| + 1) % TWO_TO_THE_32;
      ghost var buf0 := Contents();
      WriteLength(byteCount);
      ghost var buf1 := Contents();
      buffer := buffer.Extend(s);
      buffer := buffer.Push(0);
      assert Contents() == buf1 + (s + [0]);
      AppendRaw(buf0, [LengthWord(wire, |s| + 1)], buf1, s + [0], Contents(), start);
    }

    // A length prefix and raw bytes, for sequences of u8.
    method WriteBytes(bytes: Bytes)
      requires Valid()
      modifies this`buffer
      ensures Valid() && Grew(old(Contents()), [LengthWord(wire, |bytes|), Atom(1, bytes)])
    {
      hide Appended, Word;
      assert [LengthWord(wire, |bytes|), Atom(1, bytes)] == [LengthWord(wire, |bytes|)] + [Atom(1, bytes)];
      ghost var buf0 := Contents();
      WriteLength(|bytes|);
      ghost var buf1 := Contents();
      buffer := buffer.Extend(bytes);
      AppendRaw(buf0, [LengthWord(wire, |bytes|)], buf1, bytes, Contents(), start);
    }

    // A slice of plain values as one block; the host is little-endian. The assertion that the
    // slice is not empty is compiled out in release builds; an empty one is padding alone.
    method WritePodSlice(vs: seq<Val>, t: Ty)
      requires Valid() && IsPlain(wire.program, t)
      modifies this`buffer
      ensures Valid() && Grew(old(Contents()), [BlockOf(wire.program, vs, t)])
    {
      hide AlignOf, MemoryOfSlice, IsPlain, Padding, Zeros, Appended;
      ghost var buf0 := Contents();
      Align(AlignOf(wire.program, t));
      ghost var buf1 := Contents();
      buffer := buffer.Extend(MemoryOfSlice(wire.program, vs, t));
      AppendWord(buf0, BlockOf(wire.program, vs, t), buf1, Contents(), start);
    }
  }

  // Zeros up to the boundary and then the bytes form an atom.
  lemma AppendWord(buf0: Bytes, a: Atom, buf1: Bytes, buf2: Bytes, start: nat)
    requires start <= |buf0| && buf1 == buf0 + Zeros(Padding(|buf0| - start, a.align)) && buf2 == buf1 + a.bytes
    ensures Appended(buf0, |buf0| - start, [a], buf2, |buf2| - start)
  {
    hide Padding;
    assert [a][1..] == [] && a.bytes + [] == a.bytes;
    Associative(buf0, Zeros(Padding(|buf0| - start, a.align)), a.bytes);
  }

  // Bytes appended as they are form an atom of boundary one.
  lemma AppendRaw(buf0: Bytes, atoms: seq<Atom>, buf1: Bytes, raw: Bytes, buf2: Bytes, start: nat)
    requires start <= |buf0| <= |buf1| && Appended(buf0, |buf0| - start, atoms, buf1, |buf1| - start)
    requires buf2 == buf1 + raw
    ensures Appended(buf0, |buf0| - start, atoms + [Atom(1, raw)], buf2, |buf2| - start)
  {
    var body := [Atom(1, raw)];
    hide Encode, End;
    assert buf1 + Zeros(Padding(|buf1| - start, 1)) == buf1;
    AppendWord(buf1, body[0], buf1, buf2, start);
    AppendedAfter(buf0, |buf0| - start, atoms, buf1, |buf1| - start, body, buf2, |buf2| - start);
  }

  class CdrReader {
    const input: Bytes
    var position: nat
    const codec: Codec

    ghost predicate Valid()
      reads this
    {
      position <= |input| <= USIZE_MAX && codec.lang.Rust?
    }

    // The outcome is the one expected, and the position is its end; after an error the
    // position has not moved back and is still inside the input.
    ghost predicate Did<T(!new)>(r: Result<T>, expected: Decoded<T>, position0: nat)
      reads this
    {
      && position0 <= position <= |input|
      && match expected
         case Ok(v, p) => r == Success(v) && position == p
         case Err(e) => r == Failure(e)
    }

    constructor (input: Bytes, wire: Wire)
      requires |input| <= USIZE_MAX
      ensures Valid() && this.input == input && position == 0 && codec == Codec(wire, Rust)
    {
      this.input := input;
      position := 0;
      codec := Codec(wire, Rust);
    }

    function Remaining(): nat
      requires position <= |input|
      reads this
    {
      |input| - position
    }

    method Align(alignment: Boundary) returns (ok: bool)
      requires Valid()
      modifies this`position
      ensures Valid()
      ensures ok == (old(position) + Padding(old(position), alignment) <= |input|)
      ensures position == if ok then old(position) + Padding(old(position), alignment) else old(position)
    {
      var modulo := position % alignment;
      if modulo != 0 {
        var padding := alignment - modulo;
        if Remaining() < padding {
          return false;
        }
        position := position + padding;
      }
      ok := true;
    }

    method ReadBytes(count: nat) returns (r: Result<Bytes>)
      requires Valid()
      modifies this`position
      ensures Valid()
      ensures Did(r, if old(position) + count <= |input|
                     then Ok(input[old(position)..old(position) + count], old(position) + count)
                     else Err(UnexpectedEof), old(position))
      ensures r.Failure? ==> position == old(position)
    {
      if Remaining() < count {
        return Failure(UnexpectedEof);
      }
      r := Success(input[position..position + count]);
      position := position + count;
    }

    // read_u8 to read_f64.
    method ReadNumber(n: Boundary) returns (r: Result<nat>)
      requires Valid()
      modifies this`position
      ensures Valid() && Did(r, DecodeWord(codec, input, old(position), n), old(position))
    {
      var ok := Align(n);
      if !ok {
        return Failure(UnexpectedEof);
      }
      var bytes := ReadBytes(n);
      r := if bytes.Success? then Success(NumberValue(codec.wire.order, bytes.value)) else Failure(bytes.error);
    }

    method ReadPrim(prim: Prim) returns (r: Result<Val>)
      requires Valid()
      modifies this`position
      ensures Valid() && Did(r, DecodePrim(codec, prim, input, old(position)), old(position))
    {
      var bits := ReadNumber(Width(prim));
      if bits.Failure? {
        return Failure(bits.error);
      }
      if prim == Bool && bits.value > 1 {
        return Failure(InvalidBool(bits.value));
      }
      if prim == Char && !IsScalar(bits.value) {
        return Failure(InvalidChar(bits.value));
      }
      r := Success(VPrim(bits.value));
    }

    method ReadString() returns (r: Result<Val>)
      requires Valid()
      modifies this`position
      ensures Valid() && Did(r, DecodeString(codec, input, old(position)), old(position))
    {
      var len := ReadNumber(4);
      if len.Failure? {
        return Failure(len.error);
      }
      if len.value == 0 {
        return Success(VString([]));
      }
      var bytes := ReadBytes(len.value);
      if bytes.Failure? {
        return Failure(bytes.error);
      }
      var raw := bytes.value;
      var str := if raw[|raw| - 1] == 0 then raw[..|raw| - 1] else raw;
      r := if IsUtf8(str) then Success(VString(str)) else Failure(Utf8);
    }

    method ReadSequenceLength() returns (r: Result<nat>)
      requires Valid()
      modifies this`position
      ensures Valid() && forall elem :: Did(r, DecodeLength(codec, elem, input, old(position)), old(position))
    {
      r := ReadNumber(4);
      if r.Success? && r.value > MAX_SEQUENCE_LENGTH {
        return Failure(SequenceTooLong(r.value));
      }
    }

    // No cap here: this is the one length read_sequence_length does not see.
    method ReadByteSequence() returns (r: Result<Bytes>)
      requires Valid()
      modifies this`position
      ensures Valid() && Did(r, DecodeByteSequence(codec, input, old(position)), old(position))
    {
      var len := ReadNumber(4);
      if len.Failure? {
        return Failure(len.error);
      }
      r := ReadBytes(len.value);
    }

    method ReadPodSlice(t: Ty, count: nat) returns (r: Result<seq<Val>>)
      requires Valid() && IsPlain(codec.wire.program, t)
      modifies this`position
      ensures Valid() && Did(r, DecodeBlock(codec.wire.program, t, count, input, old(position)), old(position))
    {
      hide SliceFromMemory, IsPlain, AlignOf, SizeOf, Padding;
      ghost var p := codec.wire.program;
      if count == 0 {
        return Success([]);
      }
      var ok := Align(AlignOf(codec.wire.program, t));
      SizeOfSliceIsAProduct(p, t, count);
      var byteCount := count * SizeOf(codec.wire.program, t);
      if !ok || byteCount > USIZE_MAX {
        return Failure(UnexpectedEof);
      }
      var bytes := ReadBytes(byteCount);
      if bytes.Failure? {
        return Failure(bytes.error);
      }
      r := Success(SliceFromMemory(codec.wire.program, t, count, bytes.value));
    }
  }

  function DecodeByteSequence(c: Codec, data: Bytes, pos: nat): (r: Decoded<Bytes>)
    ensures r.Ok? ==> pos + 4 + |r.value| <= r.pos <= |data|
  {
    var (n, q) :- DecodeWord(c, data, pos, 4);
    if q + n <= |data| then Ok(data[q..q + n], q + n) else Err(UnexpectedEof)
  }
}
