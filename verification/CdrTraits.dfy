/**
 `CdrSerialize`, `CdrDeserialize` and `CdrSerializedSize`: one method per trait,
 with the type as a parameter where Rust selects the impl by type. Generated
 structs serialize their fields in order.
 */
module CdrTraits {
  import opened CdrWire
  import opened CdrLayout
  import opened CdrTypes
  import opened CdrRoundTrip
  import opened CdrBuffers
  import opened CdrBulk
  import opened CdrPrimitives

  // The types these traits are implemented for. A block needs elements that are plain.
  predicate IsTraitType(p: Program, t: Ty) {
    match t
    case TPrim(prim) => prim != Char
    case TString | TMsg(_) => true
    case TSeq(elem) => IsTraitType(p, elem)
    case TArray(_, elem) => IsTraitType(p, elem)
    case TBulkSeq(elem) => IsBlockElement(p, elem)
    case TBulkArray(_, elem) => IsBlockElement(p, elem)
    case TTuple(fields) => forall f <- fields :: IsTraitType(p, f)
    case _ => false
  }

  predicate IsTraitProgram(p: Program) {
    forall name <- p.types :: forall f <- p.types[name] :: IsTraitType(p, f)
  }

  // ----- serialize ------------------------------------------------------------------

  method CdrSerialize(w: CdrWriter, v: Val, t: Ty)
    requires w.Valid() && IsTraitProgram(w.wire.program)
    requires IsTraitType(w.wire.program, t) && HasType(w.wire.program, v, t)
    modifies w`buffer
    ensures w.Valid() && w.Grew(old(w.Contents()), Flat(w.wire, v, t))
    decreases v, 1
  {
    hide FlatFields, FlatList, Appended, BlockOf;
    match t
    case TPrim(prim) =>
      if prim == Bool {
        w.WriteBool(v.bits != 0);
      } else {
        w.WriteNumber(v.bits, Width(prim));
      }
    case TString => w.WriteString(v.chars);
    case TSeq(elem) =>
      ghost var buf0 := w.Contents();
      w.WriteLength(|v.items|);
      ghost var buf1 := w.Contents();
      SerializeElements(w, v.items, elem);
      AppendedAfter(buf0, |buf0| - w.start, [LengthWord(w.wire, |v.items|)], buf1, |buf1| - w.start,
                    FlatList(w.wire, v.items, elem), w.Contents(), |w.Contents()| - w.start);
    case TArray(_, elem) => SerializeElements(w, v.items, elem);
    case TBulkSeq(elem) =>
      ghost var buf0 := w.Contents();
      w.WriteLength(|v.items|);
      ghost var buf1 := w.Contents();
      ghost var prefix := [LengthWord(w.wire, |v.items|)];
      if v.items != [] {
        w.WritePodSlice(v.items, elem);
        AppendedAfter(buf0, |buf0| - w.start, prefix, buf1, |buf1| - w.start,
                      [BlockOf(w.wire.program, v.items, elem)], w.Contents(), |w.Contents()| - w.start);
      } else {
        assert prefix + [] == prefix;
      }
    case TBulkArray(_, elem) => w.WritePodSlice(v.items, elem);
    case TTuple(fields) => SerializeFields(w, v.items, fields);
    case TMsg(name) => SerializeFields(w, v.items, w.wire.program.Fields(name));
  }

  method SerializeElements(w: CdrWriter, vs: seq<Val>, elem: Ty)
    requires w.Valid() && IsTraitProgram(w.wire.program) && IsTraitType(w.wire.program, elem)
    requires AllHaveType(w.wire.program, vs, elem)
    modifies w`buffer
    ensures w.Valid() && w.Grew(old(w.Contents()), FlatList(w.wire, vs, elem))
    decreases vs, 0
  {
    hide HasType, Flat, IsTraitType, IsTraitProgram, Appended, StillToAppend;
    ghost var buf0, start, all := w.Contents(), w.start, FlatList(w.wire, vs, elem);
    assert vs[0..] == vs;
    NothingAppended(buf0, |buf0| - start, all);
    for i := 0 to |vs|
      invariant w.Valid() && |buf0| <= |w.Contents()|
      invariant StillToAppend(buf0, |buf0| - start, all, w.Contents(), |w.Contents()| - start,
                              FlatList(w.wire, vs[i..], elem))
    {
      ghost var head, tail := Flat(w.wire, vs[i], elem), FlatList(w.wire, vs[i + 1..], elem);
      assert vs[i..][1..] == vs[i + 1..];
      assert FlatList(w.wire, vs[i..], elem) == head + tail;
      ghost var buf1 := w.Contents();
      CdrSerialize(w, vs[i], elem);
      AppendMore(buf0, |buf0| - start, all, buf1, |buf1| - start, head, tail, w.Contents(), |w.Contents()| - start);
    }
    AllAppended(buf0, |buf0| - start, all, w.Contents(), |w.Contents()| - start);
  }

  method SerializeFields(w: CdrWriter, vs: seq<Val>, ts: seq<Ty>)
    requires w.Valid() && IsTraitProgram(w.wire.program) && (forall t <- ts :: IsTraitType(w.wire.program, t))
    requires HaveTypes(w.wire.program, vs, ts)
    modifies w`buffer
    ensures w.Valid() && w.Grew(old(w.Contents()), FlatFields(w.wire, vs, ts))
    decreases vs, 0
  {
    hide HasType, Flat, IsTraitType, IsTraitProgram, Appended, StillToAppend;
    ghost var buf0, start, all := w.Contents(), w.start, FlatFields(w.wire, vs, ts);
    assert vs[0..] == vs && ts[0..] == ts;
    NothingAppended(buf0, |buf0| - start, all);
    for i := 0 to |vs|
      invariant w.Valid() && |buf0| <= |w.Contents()|
      invariant StillToAppend(buf0, |buf0| - start, all, w.Contents(), |w.Contents()| - start,
                              FlatFields(w.wire, vs[i..], ts[i..]))
    {
      ghost var head, tail := Flat(w.wire, vs[i], ts[i]), FlatFields(w.wire, vs[i + 1..], ts[i + 1..]);
      assert vs[i..][1..] == vs[i + 1..] && ts[i..][1..] == ts[i + 1..];
      assert FlatFields(w.wire, vs[i..], ts[i..]) == head + tail;
      ghost var buf1 := w.Contents();
      CdrSerialize(w, vs[i], ts[i]);
      AppendMore(buf0, |buf0| - start, all, buf1, |buf1| - start, head, tail, w.Contents(), |w.Contents()| - start);
    }
    AllAppended(buf0, |buf0| - start, all, w.Contents(), |w.Contents()| - start);
  }

  // cdr_to_vec: a fresh vector holds exactly the encoding at position 0.
  method CdrToVec(wire: Wire, v: Val, t: Ty) returns (buffer: Bytes)
    requires IsTraitProgram(wire.program) && IsTraitType(wire.program, t) && HasType(wire.program, v, t)
    ensures buffer == Encode(0, Flat(wire, v, t))
  {
    var w := new CdrWriter(Vec([]), wire);
    CdrSerialize(w, v, t);
    buffer := w.buffer.bytes;
  }

  // ----- deserialize ----------------------------------------------------------------

  method CdrDeserialize(r: CdrReader, t: Ty) returns (out: Result<Val>)
    requires r.Valid() && IsTraitProgram(r.codec.wire.program) && IsTraitType(r.codec.wire.program, t)
    modifies r`position
    ensures r.Valid() && r.Did(out, Decode(r.codec, t, r.input, old(r.position)), old(r.position))
    decreases |r.input| - r.position, r.codec.wire.program.Rank(t), t, 0
  {
    hide DecodeList, DecodeFields, DecodePrim, DecodeString, DecodeWord;
    ghost var pos0 := r.position;
    match t
    case TPrim(prim) => out := r.ReadPrim(prim);
    case TString => out := r.ReadString();
    case TSeq(elem) =>
      var count := r.ReadSequenceLength();
      if count.Failure? {
        return Failure(count.error);
      }
      assert r.Did(count, DecodeLength(r.codec, elem, r.input, pos0), pos0);
      var items := DeserializeElements(r, elem, count.value);
      out := if items.Success? then Success(VList(items.value)) else Failure(items.error);
    case TArray(n, elem) =>
      var items := DeserializeElements(r, elem, n);
      out := if items.Success? then Success(VList(items.value)) else Failure(items.error);
    case TBulkSeq(elem) =>
      var count := r.ReadSequenceLength();
      if count.Failure? {
        return Failure(count.error);
      }
      assert r.Did(count, DecodeLength(r.codec, t, r.input, pos0), pos0);
      if count.value == 0 {
        return Success(VList([]));
      }
      var items := r.ReadPodSlice(elem, count.value);
      out := if items.Success? then Success(VList(items.value)) else Failure(items.error);
    case TBulkArray(n, elem) =>
      var items := r.ReadPodSlice(elem, n);
      out := if items.Success? then Success(VList(items.value)) else Failure(items.error);
    case TTuple(fields) =>
      var items := DeserializeFields(r, fields);
      out := if items.Success? then Success(VList(items.value)) else Failure(items.error);
    case TMsg(name) =>
      var items := DeserializeFields(r, r.codec.wire.program.Fields(name));
      out := if items.Success? then Success(VList(items.value)) else Failure(items.error);
  }

  method DeserializeElements(r: CdrReader, elem: Ty, n: nat) returns (out: Result<seq<Val>>)
    requires r.Valid() && IsTraitProgram(r.codec.wire.program) && IsTraitType(r.codec.wire.program, elem)
    modifies r`position
    ensures r.Valid()
    ensures r.Did(out, DecodeList(r.codec, elem, n, 0, r.input, old(r.position)), old(r.position))
    decreases |r.input| - r.position, r.codec.wire.program.Rank(elem), elem, n + 1
  {
    hide Decode, IsTraitType, IsTraitProgram;
    ghost var c, pos0 := r.codec, r.position;
    var vs := [];
    BehindNothing(DecodeList(c, elem, n, 0, r.input, pos0));
    for i := 0 to n
      invariant r.Valid() && pos0 <= r.position
      invariant DecodeList(c, elem, n, 0, r.input, pos0) ==
        Behind(vs, DecodeList(c, elem, n - i, 0, r.input, r.position))
    {
      var one := CdrDeserialize(r, elem);
      if one.Failure? {
        return Failure(one.error);
      }
      BehindOne(vs, one.value, DecodeList(c, elem, n - i - 1, 0, r.input, r.position));
      vs := vs + [one.value];
    }
    assert vs + [] == vs;
    out := Success(vs);
  }

  method DeserializeFields(r: CdrReader, ts: seq<Ty>) returns (out: Result<seq<Val>>)
    requires r.Valid() && IsTraitProgram(r.codec.wire.program) && forall t <- ts :: IsTraitType(r.codec.wire.program, t)
    modifies r`position
    ensures r.Valid() && r.Did(out, DecodeFields(r.codec, ts, r.input, old(r.position)), old(r.position))
    decreases |r.input| - r.position, r.codec.wire.program.RankAll(ts), ts, 0
  {
    hide Decode, IsTraitType, IsTraitProgram;
    ghost var c, pos0 := r.codec, r.position;
    var vs := [];
    assert ts[0..] == ts;
    BehindNothing(DecodeFields(c, ts, r.input, pos0));
    for i := 0 to |ts|
      invariant r.Valid() && pos0 <= r.position
      invariant DecodeFields(c, ts, r.input, pos0) == Behind(vs, DecodeFields(c, ts[i..], r.input, r.position))
    {
      assert ts[i..][1..] == ts[i + 1..];
      RankOfField(c.wire.program, ts, i);
      var one := CdrDeserialize(r, ts[i]);
      if one.Failure? {
        return Failure(one.error);
      }
      BehindOne(vs, one.value, DecodeFields(c, ts[i + 1..], r.input, r.position));
      vs := vs + [one.value];
    }
    assert vs + [] == vs;
    out := Success(vs);
  }

  // ----- serialized size --------------------------------------------------------------

  method PaddingFor(pos: nat, align: Boundary) returns (r: nat)
    ensures r == Padding(pos, align)
  {
    var modulo := pos % align;
    r := if modulo == 0 then 0 else align - modulo;
  }

  // No fixed array of no plain elements: the writer pads one, and the size leaves that out.
  predicate HasNoEmptyBlock(p: Program, t: Ty) {
    match t
    case TBulkArray(n, elem) => n > 0 || AlignOf(p, elem) == 1
    case TSeq(elem) => HasNoEmptyBlock(p, elem)
    case TArray(_, elem) => HasNoEmptyBlock(p, elem)
    case TTuple(fields) => forall f <- fields :: HasNoEmptyBlock(p, f)
    case _ => true
  }

  predicate AllHaveNoEmptyBlock(p: Program) {
    forall name <- p.types :: forall f <- p.types[name] :: HasNoEmptyBlock(p, f)
  }

  lemma FieldsHaveNoEmptyBlock(p: Program, name: string)
    ensures AllHaveNoEmptyBlock(p) ==> forall f <- p.Fields(name) :: HasNoEmptyBlock(p, f)
  {
  }

  /**
   The predicted size of a value is the position its serialization ends at, for every type
   without empty blocks and every starting position.
   */
  method CdrSerializedSize(wire: Wire, v: Val, t: Ty, pos: nat) returns (p: nat)
    requires IsTraitProgram(wire.program) && IsTraitType(wire.program, t) && HasType(wire.program, v, t)
    ensures AllHaveNoEmptyBlock(wire.program) && HasNoEmptyBlock(wire.program, t) ==>
      p == End(pos, Flat(wire, v, t)) == pos + |Encode(pos, Flat(wire, v, t))|
    decreases v, 1
  {
    hide FlatFields, FlatList, NumberBytes, Padding, Encode, BlockOf, AllHaveNoEmptyBlock;
    match t
    case TPrim(prim) =>
      var pad := PaddingFor(pos, Width(prim));
      p := pos + pad + Width(prim);
      assert Flat(wire, v, t)[1..] == [];
    case TString =>
      var pad := PaddingFor(pos, 4);
      var afterLen := pos + pad + 4;
      p := afterLen + |v.chars| + 1;
      StringEnd(wire, v, pos);
    case TSeq(elem) =>
      var pad := PaddingFor(pos, 4);
      var prefix := [LengthWord(wire, |v.items|)];
      p := SizeOfElements(wire, v.items, elem, pos + pad + 4);
      assert prefix[1..] == [] && End(pos, prefix) == pos + pad + 4;
      EncodeConcat(pos, prefix, FlatList(wire, v.items, elem));
    case TArray(_, elem) => p := SizeOfElements(wire, v.items, elem, pos);
    case TBulkSeq(elem) =>
      var pad := PaddingFor(pos, 4);
      var prefix := [LengthWord(wire, |v.items|)];
      p := SizeOfBlock(wire, v.items, elem, pos + pad + 4);
      assert prefix[1..] == [] && End(pos, prefix) == pos + pad + 4;
      EncodeConcat(pos, prefix, if v.items == [] then [] else [BlockOf(wire.program, v.items, elem)]);
    case TBulkArray(_, elem) =>
      p := SizeOfBlock(wire, v.items, elem, pos);
      EmptyBlockSize(wire.program, elem, pos);
      PaddingAligns(pos, 1);
    case TTuple(fields) => p := SizeOfFields(wire, v.items, fields, pos);
    case TMsg(name) =>
      FieldsHaveNoEmptyBlock(wire.program, name);
      p := SizeOfFields(wire, v.items, wire.program.Fields(name), pos);
  }

  // The size of plain elements without a look at them: alignment and count times size.
  method SizeOfBlock(wire: Wire, vs: seq<Val>, elem: Ty, pos: nat) returns (p: nat)
    requires IsPlain(wire.program, elem) && AllHaveType(wire.program, vs, elem)
    ensures p == End(pos, if vs == [] then [] else [BlockOf(wire.program, vs, elem)])
  {
    hide Padding, HasType, IsPlain, AlignOf, SizeOf, MemoryOfSlice;
    p := pos;
    if vs != [] {
      var align := AlignOf(wire.program, elem);
      var pad := PaddingFor(pos, align);
      SizeOfSliceIsAProduct(wire.program, elem, |vs|);
      SliceRoundTrip(wire.program, vs, elem);
      OneAtom(pos, BlockOf(wire.program, vs, elem));
      p := pos + pad + |vs| * SizeOf(wire.program, elem);
    }
  }

  lemma StringEnd(wire: Wire, v: Val, pos: nat)
    requires v.VString?
    ensures End(pos, Flat(wire, v, TString)) == pos + Padding(pos, 4) + 4 + |v.chars| + 1
  {
    hide NumberBytes;
    var body := [Atom(1, v.chars + [0])];
    assert Flat(wire, v, TString)[1..] == body && body[1..] == [];
    var q := pos + Padding(pos, 4) + 4;
    PaddingAligns(q, 1);
    assert End(q, body) == q + |v.chars| + 1;
  }

  method SizeOfElements(wire: Wire, vs: seq<Val>, elem: Ty, pos: nat) returns (p: nat)
    requires IsTraitProgram(wire.program) && IsTraitType(wire.program, elem) && AllHaveType(wire.program, vs, elem)
    ensures AllHaveNoEmptyBlock(wire.program) && HasNoEmptyBlock(wire.program, elem) ==>
      p == End(pos, FlatList(wire, vs, elem))
    decreases vs, 0
  {
    hide HasType, Flat, IsTraitType, IsTraitProgram, HasNoEmptyBlock, AllHaveNoEmptyBlock;
    ghost var exact := AllHaveNoEmptyBlock(wire.program) && HasNoEmptyBlock(wire.program, elem);
    p := pos;
    assert vs[0..] == vs;
    for i := 0 to |vs|
      invariant exact ==> End(p, FlatList(wire, vs[i..], elem)) == End(pos, FlatList(wire, vs, elem))
    {
      assert vs[i..][1..] == vs[i + 1..];
      EncodeConcat(p, Flat(wire, vs[i], elem), FlatList(wire, vs[i + 1..], elem));
      p := CdrSerializedSize(wire, vs[i], elem, p);
    }
  }

  method SizeOfFields(wire: Wire, vs: seq<Val>, ts: seq<Ty>, pos: nat) returns (p: nat)
    requires IsTraitProgram(wire.program) && HaveTypes(wire.program, vs, ts)
    requires forall t <- ts :: IsTraitType(wire.program, t)
    ensures AllHaveNoEmptyBlock(wire.program) && (forall t <- ts :: HasNoEmptyBlock(wire.program, t)) ==>
      p == End(pos, FlatFields(wire, vs, ts))
    decreases vs, 0
  {
    hide HasType, Flat, IsTraitType, IsTraitProgram, HasNoEmptyBlock, AllHaveNoEmptyBlock;
    ghost var exact := AllHaveNoEmptyBlock(wire.program) && forall t <- ts :: HasNoEmptyBlock(wire.program, t);
    p := pos;
    assert vs[0..] == vs && ts[0..] == ts;
    for i := 0 to |vs|
      invariant exact ==> End(p, FlatFields(wire, vs[i..], ts[i..])) == End(pos, FlatFields(wire, vs, ts))
    {
      assert vs[i..][1..] == vs[i + 1..] && ts[i..][1..] == ts[i + 1..];
      EncodeConcat(p, Flat(wire, vs[i], ts[i]), FlatFields(wire, vs[i + 1..], ts[i + 1..]));
      p := CdrSerializedSize(wire, vs[i], ts[i], p);
    }
  }

  // Shifting the start by a multiple of eight shifts the size and leaves the bytes alone.
  lemma SizeIsPeriodic(wire: Wire, v: Val, t: Ty, pos: nat, k: nat)
    ensures End(pos + 8 * k, Flat(wire, v, t)) == End(pos, Flat(wire, v, t)) + 8 * k
    ensures Encode(pos + 8 * k, Flat(wire, v, t)) == Encode(pos, Flat(wire, v, t))
  {
    EncodeIsPeriodic(pos, k, Flat(wire, v, t));
  }

  // ----- the pair of traits -------------------------------------------------------------

  // Serializing into a fresh vector and reading it back gives the value and uses every byte.
  method TraitRoundTrip(wire: Wire, v: Val, t: Ty) returns (out: Result<Val>, used: nat, predicted: nat)
    requires IsTraitProgram(wire.program) && IsTraitType(wire.program, t)
    requires HasType(wire.program, v, t) && WithinLimits(wire.program, true, v, t)
    requires |Encode(0, Flat(wire, v, t))| <= USIZE_MAX
    ensures out == Success(v) && used == |Encode(0, Flat(wire, v, t))|
    ensures AllHaveNoEmptyBlock(wire.program) && HasNoEmptyBlock(wire.program, t) ==> predicted == used
  {
    hide HasType, WithinLimits, Flat, Encode, Decode;
    var buffer := CdrToVec(wire, v, t);
    predicted := CdrSerializedSize(wire, v, t, 0);
    var r := new CdrReader(buffer, wire);
    WrittenRoundTrip(Codec(wire, Rust), v, t, [], []);
    assert [] + buffer + [] == buffer && [] + buffer == buffer;
    out := CdrDeserialize(r, t);
    used := r.position;
  }
}
