/**
 `ZBufWriter`: a second target for the CDR writer, a list of finished slices and
 a pending tail. It must be indistinguishable from a flat byte vector.
 */
module ZBufWriters {
  import opened CdrWire
  import opened CdrLayout
  import opened CdrTypes
  import opened CdrBulk
  import opened CdrBuffers
  import opened CdrPrimitives
  import opened CdrTraits

  // What a CDR writer does to its buffer, and the two appends that skip the copy.
  datatype BufferOp =
    | Write(atom: Atom)            // align, then extend_from_slice
    | Raw(bytes: Bytes)            // extend_from_slice without alignment
    | Push(byte: Byte)
    | AppendSlice(slice: Bytes)
    | AppendZBuf(slices: seq<Bytes>)

  // ----- the flat buffer ----------------------------------------------------------------

  // One operation on a Vec<u8> by a writer that started at `start`.
  function Step(op: BufferOp, start: nat, buffer: Bytes): (r: Bytes)
    requires start <= |buffer|
    ensures buffer <= r
  {
    match op
    case Write(atom) => buffer + Zeros(Padding(|buffer| - start, atom.align)) + atom.bytes
    case Raw(bytes) => buffer + bytes
    case Push(byte) => buffer + [byte]
    case AppendSlice(slice) => buffer + slice
    case AppendZBuf(slices) => buffer + Contiguous(slices)
  }

  function Run(ops: seq<BufferOp>, start: nat, buffer: Bytes): (r: Bytes)
    requires start <= |buffer|
    ensures buffer <= r
    decreases ops
  {
    if ops == [] then buffer else Run(ops[1..], start, Step(ops[0], start, buffer))
  }

  // ----- the slice list -----------------------------------------------------------------

  class ZBufWriter {
    var zbuf: seq<Bytes>
    var current: Bytes
    var totalLen: nat

    ghost function Value(): Target
      reads this
    {
      Slices(zbuf, current, totalLen)
    }

    ghost function Contents(): Bytes
      reads this
    {
      Value().Contents()
    }

    ghost predicate Valid()
      reads this
    {
      Value().CountsRight()
    }

    constructor ()
      ensures Valid() && Value() == EMPTY_SLICES
    {
      zbuf, current, totalLen := [], [], 0;
    }

    // The buffer a CDR writer borrowed comes back.
    method Replace(buffer: Buffer)
      requires buffer.Slices?
      modifies this
      ensures Valid() && Value() == buffer
    {
      zbuf, current, totalLen := buffer.zbuf, buffer.current, buffer.totalLen;
    }

    method FlushCurrent()
      requires Valid()
      modifies this`zbuf, this`current
      ensures Valid() && Contents() == old(Contents())
      ensures current == [] && Contiguous(zbuf) == Contents()
      ensures zbuf == if old(current) == [] then old(zbuf) else old(zbuf) + [old(current)]
    {
      if current != [] {
        ContiguousAppend(zbuf, current);
        zbuf := zbuf + [current];
        current := [];
      }
      assert Contiguous(zbuf) + [] == Contiguous(zbuf);
    }

    method AppendZSlice(slice: Bytes)
      requires Valid()
      modifies this
      ensures Valid() && Contents() == old(Contents()) + slice
      ensures |zbuf| > 0 && zbuf[|zbuf| - 1] == slice
    {
      FlushCurrent();
      ContiguousAppend(zbuf, slice);
      zbuf := zbuf + [slice];
      totalLen := totalLen + |slice|;
      assert Contents() == Contiguous(zbuf);
    }

    method AppendZBuf(slices: seq<Bytes>)
      requires Valid()
      modifies this
      ensures Valid() && Contents() == old(Contents()) + Contiguous(slices)
    {
      ghost var whole := Contents() + Contiguous(slices);
      for i := 0 to |slices|
        invariant Valid() && Contents() + Contiguous(slices[i..]) == whole
      {
        assert slices[i..][1..] == slices[i + 1..];
        Associative(Contents(), slices[i], Contiguous(slices[i + 1..]));
        AppendZSlice(slices[i]);
      }
      assert Contents() + [] == Contents();
    }

    method ExtendFromSlice(data: Bytes)
      requires Valid()
      modifies this`current, this`totalLen
      ensures Valid() && Value() == old(Value()).Extend(data) && Contents() == old(Contents()) + data
    {
      ghost var extended := Value().Extend(data);
      current := current + data;
      totalLen := totalLen + |data|;
    }

    method Push(byte: Byte)
      requires Valid()
      modifies this`current, this`totalLen
      ensures Valid() && Value() == old(Value()).Push(byte) && Contents() == old(Contents()) + [byte]
    {
      ghost var pushed := Value().Push(byte);
      current := current + [byte];
      totalLen := totalLen + 1;
    }

    method Clear()
      modifies this
      ensures Valid() && Value() == EMPTY_SLICES
    {
      zbuf, current, totalLen := [], [], 0;
    }

    method IntoZBuf() returns (slices: seq<Bytes>)
      requires Valid()
      modifies this
      ensures Contiguous(slices) == old(Contents())
    {
      FlushCurrent();
      slices := zbuf;
    }

    // The writer's alignment, decided by `total_len` alone.
    method Align(start: nat, alignment: Boundary)
      requires Valid() && start <= totalLen
      modifies this`current, this`totalLen
      ensures Valid() && Contents() == old(Contents()) + Zeros(Padding(old(totalLen) - start, alignment))
    {
      var modulo := (totalLen - start) % alignment;
      if modulo != 0 {
        ExtendFromSlice(Zeros(alignment - modulo));
      } else {
        assert Contents() == Contents() + Zeros(0);
      }
    }

    method Perform(op: BufferOp, start: nat)
      requires Valid() && start <= totalLen
      modifies this
      ensures Valid() && Contents() == Step(op, start, old(Contents()))
    {
      hide Contiguous;
      match op
      case Write(atom) =>
        Align(start, atom.align);
        ExtendFromSlice(atom.bytes);
      case Raw(bytes) => ExtendFromSlice(bytes);
      case Push(byte) => Push(byte);
      case AppendSlice(slice) => AppendZSlice(slice);
      case AppendZBuf(slices) => AppendZBuf(slices);
    }

    /**
     Over every run of operations the slices and the tail together equal the flat buffer, so
     `total_len` is its length and every alignment decision is the same.
     */
    method PerformAll(ops: seq<BufferOp>, start: nat)
      requires Valid() && start <= totalLen
      modifies this
      ensures Valid() && Contents() == Run(ops, start, old(Contents()))
      ensures totalLen == |Run(ops, start, old(Contents()))|
    {
      hide Step, Contiguous;
      ghost var before := Contents();
      assert ops[0..] == ops;
      for i := 0 to |ops|
        invariant Valid() && start <= totalLen
        invariant Run(ops[i..], start, Contents()) == Run(ops, start, before)
      {
        assert ops[i..][1..] == ops[i + 1..];
        Perform(ops[i], start);
      }
    }
  }

  // ----- values through either buffer -------------------------------------------------------

  function Writes(atoms: seq<Atom>): seq<BufferOp> {
    if atoms == [] then [] else [Write(atoms[0])] + Writes(atoms[1..])
  }

  // Aligned writes, one per atom, grow a flat buffer by the encoding of the atoms.
  lemma {:induction false} RunOfWrites(atoms: seq<Atom>, start: nat, buffer: Bytes)
    requires start <= |buffer|
    ensures Run(Writes(atoms), start, buffer) == buffer + Encode(|buffer| - start, atoms)
    decreases atoms
  {
    hide Encode, Padding, Step;
    if atoms == [] {
      NothingEncodes(|buffer| - start);
      assert buffer + [] == buffer;
    } else {
      var head, rest := [atoms[0]], atoms[1..];
      var next := Step(Write(atoms[0]), start, buffer);
      assert Writes(atoms)[1..] == Writes(rest);
      WriteIsAnAtom(atoms[0], start, buffer);
      RunOfWrites(rest, start, next);
      assert atoms == head + rest;
      EncodeConcat(|buffer| - start, head, rest);
      Associative(buffer, Encode(|buffer| - start, head), Encode(|next| - start, rest));
    }
  }

  lemma WriteIsAnAtom(a: Atom, start: nat, buffer: Bytes)
    requires start <= |buffer|
    ensures Step(Write(a), start, buffer) == buffer + Encode(|buffer| - start, [a])
    ensures |Step(Write(a), start, buffer)| - start == End(|buffer| - start, [a])
  {
    hide Padding;
    OneAtom(|buffer| - start, a);
    Associative(buffer, Zeros(Padding(|buffer| - start, a.align)), a.bytes);
  }

  /**
   The same serializer runs over either buffer. Into a fresh slice list it puts what it puts
   into a fresh vector: the encoding of the value at position 0.
   */
  method CdrToZBuf(wire: Wire, v: Val, t: Ty) returns (slices: seq<Bytes>)
    requires IsTraitProgram(wire.program) && IsTraitType(wire.program, t) && HasType(wire.program, v, t)
    ensures Contiguous(slices) == Encode(0, Flat(wire, v, t))
  {
    hide IsTraitProgram, IsTraitType, HasType, Flat, Encode, Contiguous;
    var z := new ZBufWriter();
    var w := new CdrWriter(Slices(z.zbuf, z.current, z.totalLen), wire);
    CdrSerialize(w, v, t);
    z.Replace(w.buffer);
    slices := z.IntoZBuf();
  }

  // Behind anything else, both buffers receive the same bytes.
  method SerializeToBoth(vec: Buffer, list: Buffer, wire: Wire, v: Val, t: Ty) returns (vec1: Buffer, list1: Buffer)
    requires vec.Vec? && list.Slices? && vec.Contents() == list.Contents()
    requires IsTraitProgram(wire.program) && IsTraitType(wire.program, t) && HasType(wire.program, v, t)
    ensures vec1.Contents() == list1.Contents() && vec1.Len() == list1.Len()
  {
    hide IsTraitProgram, IsTraitType, HasType, Flat, Encode, Contiguous, End;
    var a := new CdrWriter(vec, wire);
    CdrSerialize(a, v, t);
    var b := new CdrWriter(list, wire);
    CdrSerialize(b, v, t);
    vec1, list1 := a.buffer, b.buffer;
  }

  // The two operations of `serialize_zbuf`, on the flat buffer.
  lemma PrefixAndSlices(word: Atom, slices: seq<Bytes>, start: nat, buffer: Bytes)
    requires start <= |buffer|
    ensures Run([Write(word), AppendZBuf(slices)], start, buffer)
         == buffer + Encode(|buffer| - start, [word, Atom(1, Contiguous(slices))])
  {
    hide Padding, Zeros, Contiguous;
    var ops, pos, raw := [Write(word), AppendZBuf(slices)], |buffer| - start, Atom(1, Contiguous(slices));
    var prefixed := buffer + Zeros(Padding(pos, word.align)) + word.bytes;
    assert ops[1..] == [AppendZBuf(slices)] && [AppendZBuf(slices)][1..] == [];
    assert Step(ops[0], start, buffer) == prefixed;
    assert Run(ops[1..], start, prefixed) == Step(AppendZBuf(slices), start, prefixed) == prefixed + raw.bytes;
    TwoAtoms(pos, word, raw);
    PaddingAligns(pos + Padding(pos, word.align) + |word.bytes|, 1);
    assert Zeros(0) + raw.bytes == raw.bytes;
    Associative(buffer, Zeros(Padding(pos, word.align)), word.bytes);
    Associative(buffer, Zeros(Padding(pos, word.align)) + word.bytes, raw.bytes);
  }

  lemma TwoAtoms(pos: nat, a: Atom, b: Atom)
    ensures var pad := Padding(pos, a.align); var q := pos + pad + |a.bytes|;
      Encode(pos, [a, b]) == Zeros(pad) + a.bytes + (Zeros(Padding(q, b.align)) + b.bytes)
  {
    hide Padding, Zeros;
    assert [a, b] == [a] + [b];
    EncodeConcat(pos, [a], [b]);
    OneAtom(pos, a);
    OneAtom(pos + Padding(pos, a.align) + |a.bytes|, b);
  }

  /**
   `serialize_zbuf` splices existing slices in behind a length prefix; the bytes are those
   `serialize_bytes` writes for the contiguous payload.
   */
  method SerializeZBuf(z: ZBufWriter, wire: Wire, slices: seq<Bytes>, start: nat)
    requires z.Valid() && start <= z.totalLen
    modifies z
    ensures z.Valid() && z.Contents() == old(z.Contents())
         + Encode(old(z.totalLen) - start, [LengthWord(wire, |Contiguous(slices)|), Atom(1, Contiguous(slices))])
  {
    hide Run, Encode, LengthWord;
    var len := TotalLength(slices);
    PrefixAndSlices(LengthWord(wire, len), slices, start, z.Contents());
    z.PerformAll([Write(LengthWord(wire, len)), AppendZBuf(slices)], start);
  }

  method TotalLength(slices: seq<Bytes>) returns (len: nat)
    ensures len == |Contiguous(slices)|
  {
    len := 0;
    assert slices[0..] == slices;
    for i := 0 to |slices|
      invariant len + |Contiguous(slices[i..])| == |Contiguous(slices)|
    {
      assert slices[i..][1..] == slices[i + 1..];
      len := len + |slices[i]|;
    }
  }
}
