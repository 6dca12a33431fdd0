/**
 The serde path: `CdrSerializer` and `CdrDeserializer` over the same cursors. On
 top of what the CDR traits cover it has chars, options, enum variants, maps and
 raw byte sequences.
 */
module CdrSerde {
  import opened CdrWire
  import opened CdrLayout
  import opened CdrTypes
  import opened CdrBulk
  import opened CdrOrders
  import opened CdrBlocks
  import opened CdrBuffers
  import opened CdrRoundTrip
  import opened CdrPrimitives
  import opened CdrTraits

  // ----- types ---------------------------------------------------------------------------

  // serde hands sequences and arrays over element by element.
  predicate IsSerdeType(t: Ty) {
    match t
    case TBulkSeq(_) => false
    case TBulkArray(_, _) => false
    case TSeq(elem) => IsSerdeType(elem)
    case TArray(_, elem) => IsSerdeType(elem)
    case TTuple(fields) => forall f <- fields :: IsSerdeType(f)
    case TOption(inner) => IsSerdeType(inner)
    case TEnum(variants) => forall f <- variants :: IsSerdeType(f)
    case TMap(key, value) => IsSerdeType(key) && IsSerdeType(value)
    case _ => true
  }

  predicate IsSerdeProgram(p: Program) {
    forall name <- p.types :: forall f <- p.types[name] :: IsSerdeType(f)
  }

  lemma SerdeFields(p: Program, name: string)
    requires IsSerdeProgram(p)
    ensures forall f <- p.Fields(name) :: IsSerdeType(f)
  {
  }

  lemma {:induction false} LoopedIsSerde(t: Ty)
    ensures IsSerdeType(Looped(t))
    decreases t, 0
  {
    match t
    case TBulkSeq(elem) => LoopedIsSerde(elem);
    case TBulkArray(_, elem) => LoopedIsSerde(elem);
    case TSeq(elem) => LoopedIsSerde(elem);
    case TArray(_, elem) => LoopedIsSerde(elem);
    case TTuple(fields) => LoopedAllAreSerde(fields);
    case TOption(inner) => LoopedIsSerde(inner);
    case TEnum(variants) => LoopedAllAreSerde(variants);
    case TMap(key, value) => LoopedIsSerde(key); LoopedIsSerde(value);
    case _ =>
  }

  lemma {:induction false} LoopedAllAreSerde(ts: seq<Ty>)
    ensures forall f <- LoopedAll(ts) :: IsSerdeType(f)
    decreases ts, 0
  {
    forall i | 0 <= i < |ts| ensures IsSerdeType(LoopedAll(ts)[i]) {
      LoopedIsSerde(ts[i]);
    }
  }

  lemma LoopedProgramIsSerde(p: Program)
    ensures IsSerdeProgram(LoopedProgram(p))
  {
    forall name | name in LoopedProgram(p).types ensures forall f <- LoopedProgram(p).types[name] :: IsSerdeType(f) {
      assert LoopedProgram(p).types[name] == LoopedProgram(p).Fields(name);
      LoopedAllAreSerde(p.Fields(name));
    }
  }

  // ----- serializer -------------------------------------------------------------------

  method Serialize(w: CdrWriter, v: Val, t: Ty)
    requires w.Valid() && IsSerdeProgram(w.wire.program) && IsSerdeType(t) && HasType(w.wire.program, v, t)
    modifies w`buffer
    ensures w.Valid() && w.Grew(old(w.Contents()), Flat(w.wire, v, t))
    decreases v, 1
  {
    hide FlatFields, FlatList, Appended, NumberBytes, IsSerdeProgram;
    ghost var wire, buf0 := w.wire, w.Contents();
    match t
    case TPrim(prim) =>
      if prim == Bool {
        w.WriteBool(v.bits != 0);
      } else {
        w.WriteNumber(v.bits, Width(prim));
      }
    case TString => w.WriteString(v.chars);
    case TArray(_, elem) => SerializeElements(w, v.items, elem);
    case TTuple(fields) => SerializeFields(w, v.items, fields);
    case TMsg(name) =>
      SerdeFields(w.wire.program, name);
      SerializeFields(w, v.items, w.wire.program.Fields(name));
    case TSeq(elem) =>
      w.WriteLength(|v.items|);
      ghost var buf1 := w.Contents();
      SerializeElements(w, v.items, elem);
      Prefixed(w, buf0, |v.items|, buf1, FlatList(wire, v.items, elem));
    case TMap(key, value) =>
      w.WriteLength(|v.items|);
      ghost var buf1 := w.Contents();
      SerializeElements(w, v.items, TTuple([key, value]));
      Prefixed(w, buf0, |v.items|, buf1, FlatList(wire, v.items, TTuple([key, value])));
    case TOption(inner) =>
      if v.VNone? {
        w.WriteLength(0);
      } else {
        w.WriteLength(1);
        ghost var buf1 := w.Contents();
        Serialize(w, v.value, inner);
        Prefixed(w, buf0, 1, buf1, Flat(wire, v.value, inner));
      }
    case TEnum(variants) =>
      w.WriteLength(v.tag);
      ghost var buf1 := w.Contents();
      Serialize(w, v.payload, variants[v.tag]);
      Prefixed(w, buf0, v.tag, buf1, Flat(wire, v.payload, variants[v.tag]));
  }

  lemma Prefixed(w: CdrWriter, buf0: Bytes, n: nat, buf1: Bytes, rest: seq<Atom>)
    requires w.start <= |buf0| <= |buf1| <= |w.Contents()|
    requires Appended(buf0, |buf0| - w.start, [LengthWord(w.wire, n)], buf1, |buf1| - w.start)
    requires Appended(buf1, |buf1| - w.start, rest, w.Contents(), |w.Contents()| - w.start)
    ensures w.Grew(buf0, [LengthWord(w.wire, n)] + rest)
  {
    AppendedAfter(buf0, |buf0| - w.start, [LengthWord(w.wire, n)], buf1, |buf1| - w.start,
                  rest, w.Contents(), |w.Contents()| - w.start);
  }

  method SerializeElements(w: CdrWriter, vs: seq<Val>, elem: Ty)
    requires w.Valid() && IsSerdeProgram(w.wire.program) && IsSerdeType(elem) && AllHaveType(w.wire.program, vs, elem)
    modifies w`buffer
    ensures w.Valid() && w.Grew(old(w.Contents()), FlatList(w.wire, vs, elem))
    decreases vs, 0
  {
    hide HasType, Flat, Appended, StillToAppend, IsSerdeProgram, IsSerdeType;
    ghost var buf0, start, all := w.Contents(), w.start, FlatList(w.wire, vs, elem);
    assert vs[0..] == vs;
    NothingAppended(buf0, |buf0| - start, all);
    for i := 0 to |vs|
      invariant w.Valid() && |buf0| <= |w.Contents()|
      invariant StillToAppend(buf0, |buf0| - start, all, w.Contents(), |w.Contents()| - start,
                              FlatList(w.wire, vs[i..], elem))
    {
      ghost var head, tail := Flat(w.wire, vs[i], elem), FlatList(w.wire, vs[i + 1..], elem);
      assert vs[i..][1..] == vs[i + 1..];
      assert FlatList(w.wire, vs[i..], elem) == head + tail;
      ghost var buf1 := w.Contents();
      Serialize(w, vs[i], elem);
      AppendMore(buf0, |buf0| - start, all, buf1, |buf1| - start, head, tail, w.Contents(), |w.Contents()| - start);
    }
    AllAppended(buf0, |buf0| - start, all, w.Contents(), |w.Contents()| - start);
  }

  method SerializeFields(w: CdrWriter, vs: seq<Val>, ts: seq<Ty>)
    requires w.Valid() && IsSerdeProgram(w.wire.program) && (forall t <- ts :: IsSerdeType(t))
    requires HaveTypes(w.wire.program, vs, ts)
    modifies w`buffer
    ensures w.Valid() && w.Grew(old(w.Contents()), FlatFields(w.wire, vs, ts))
    decreases vs, 0
  {
    hide HasType, Flat, Appended, StillToAppend, IsSerdeProgram, IsSerdeType;
    ghost var buf0, start, all := w.Contents(), w.start, FlatFields(w.wire, vs, ts);
    assert vs[0..] == vs && ts[0..] == ts;
    NothingAppended(buf0, |buf0| - start, all);
    for i := 0 to |vs|
      invariant w.Valid() && |buf0| <= |w.Contents()|
      invariant StillToAppend(buf0, |buf0| - start, all, w.Contents(), |w.Contents()| - start,
                              FlatFields(w.wire, vs[i..], ts[i..]))
    {
      ghost var head, tail := Flat(w.wire, vs[i], ts[i]), FlatFields(w.wire, vs[i + 1..], ts[i + 1..]);
      assert vs[i..][1..] == vs[i + 1..] && ts[i..][1..] == ts[i + 1..];
      assert FlatFields(w.wire, vs[i..], ts[i..]) == head + tail;
      ghost var buf1 := w.Contents();
      Serialize(w, vs[i], ts[i]);
      AppendMore(buf0, |buf0| - start, all, buf1, |buf1| - start, head, tail, w.Contents(), |w.Contents()| - start);
    }
    AllAppended(buf0, |buf0| - start, all, w.Contents(), |w.Contents()| - start);
  }

  // ----- deserializer -----------------------------------------------------------------

  // Counts the elements handed to a visitor; for a map it counts the keys.
  class SequenceHelper {
    var elementCounter: nat
    const expectedCount: nat

    constructor (expectedCount: nat)
      ensures elementCounter == 0 && this.expectedCount == expectedCount
    {
      elementCounter := 0;
      this.expectedCount := expectedCount;
    }

    method NextElement() returns (more: bool)
      requires elementCounter <= expectedCount
      modifies this
      ensures more == (old(elementCounter) < expectedCount)
      ensures elementCounter == old(elementCounter) + if more then 1 else 0
    {
      if elementCounter == expectedCount {
        more := false;
      } else {
        elementCounter := elementCounter + 1;
        more := true;
      }
    }
  }

  // A word read from a position that is aligned already is the same word.
  lemma AlignedWord(c: Codec, data: Bytes, pos: nat)
    ensures DecodeWord(c, data, pos + Padding(pos, 4), 4) == DecodeWord(c, data, pos, 4)
  {
    PaddingAligns(pos, 4);
    PaddingAligns(pos + Padding(pos, 4), 4);
  }

  method Deserialize(r: CdrReader, t: Ty) returns (out: Result<Val>)
    requires r.Valid() && IsSerdeProgram(r.codec.wire.program) && IsSerdeType(t)
    modifies r`position
    ensures r.Valid() && r.Did(out, Decode(r.codec, t, r.input, old(r.position)), old(r.position))
    decreases |r.input| - r.position, r.codec.wire.program.Rank(t), t, 0
  {
    hide DecodeList, DecodeFields, DecodePrim, DecodeString, DecodeWord, IsSerdeProgram;
    ghost var pos0 := r.position;
    match t
    case TPrim(prim) => out := r.ReadPrim(prim);
    case TString => out := r.ReadString();
    case TSeq(elem) =>
      var count := r.ReadSequenceLength();
      if count.Failure? {
        return Failure(count.error);
      }
      assert r.Did(count, DecodeLength(r.codec, elem, r.input, pos0), pos0);
      var items := VisitSeq(r, elem, count.value);
      out := if items.Success? then Success(VList(items.value)) else Failure(items.error);
    case TMap(key, value) =>
      var count := r.ReadSequenceLength();
      if count.Failure? {
        return Failure(count.error);
      }
      assert r.Did(count, DecodeLength(r.codec, t, r.input, pos0), pos0);
      var items := VisitSeq(r, TTuple([key, value]), count.value);
      out := if items.Success? then Success(VList(items.value)) else Failure(items.error);
    case TArray(n, elem) =>
      var items := VisitSeq(r, elem, n);
      out := if items.Success? then Success(VList(items.value)) else Failure(items.error);
    case TTuple(fields) =>
      var items := VisitFields(r, fields);
      out := if items.Success? then Success(VList(items.value)) else Failure(items.error);
    case TMsg(name) =>
      SerdeFields(r.codec.wire.program, name);
      var items := VisitFields(r, r.codec.wire.program.Fields(name));
      out := if items.Success? then Success(VList(items.value)) else Failure(items.error);
    case TOption(inner) =>
      var tag := r.ReadNumber(4);
      if tag.Failure? {
        return Failure(tag.error);
      }
      if tag.value == 0 {
        return Success(VNone);
      } else if tag.value == 1 {
        var some := Deserialize(r, inner);
        out := if some.Success? then Success(VSome(some.value)) else Failure(some.error);
      } else {
        return Failure(InvalidOptionTag(tag.value));
      }
    case TEnum(variants) =>
      out := VisitEnum(r, variants);
  }

  method VisitEnum(r: CdrReader, variants: seq<Ty>) returns (out: Result<Val>)
    requires r.Valid() && IsSerdeProgram(r.codec.wire.program) && forall t <- variants :: IsSerdeType(t)
    modifies r`position
    ensures r.Valid() && r.Did(out, Decode(r.codec, TEnum(variants), r.input, old(r.position)), old(r.position))
    decreases |r.input| - r.position, 0, variants, 0
  {
    AlignedWord(r.codec, r.input, r.position);
    ghost var pos0 := r.position;
    var ok := r.Align(4);
    if !ok {
      return Failure(UnexpectedEof);
    }
    hide DecodeList, DecodeFields, DecodeWord;
    var tag := r.ReadNumber(4);
    if tag.Failure? {
      return Failure(tag.error);
    }
    if tag.value >= |variants| {
      return Failure(UnknownVariant(tag.value));
    }
    var payload := Deserialize(r, variants[tag.value]);
    out := if payload.Success? then Success(VEnum(tag.value, payload.value)) else Failure(payload.error);
  }

  method VisitSeq(r: CdrReader, elem: Ty, n: nat) returns (out: Result<seq<Val>>)
    requires r.Valid() && IsSerdeProgram(r.codec.wire.program) && IsSerdeType(elem)
    modifies r`position
    ensures r.Valid()
    ensures r.Did(out, DecodeList(r.codec, elem, n, 0, r.input, old(r.position)), old(r.position))
    decreases |r.input| - r.position, r.codec.wire.program.Rank(elem), elem, n + 1
  {
    hide Decode, IsSerdeProgram, IsSerdeType;
    ghost var c, pos0 := r.codec, r.position;
    var helper := new SequenceHelper(n);
    var vs: seq<Val> := [];
    BehindNothing(DecodeList(c, elem, n, 0, r.input, pos0));
    while true
      invariant r.Valid() && pos0 <= r.position
      invariant helper.elementCounter == |vs| <= n
      invariant DecodeList(c, elem, n, 0, r.input, pos0)
             == Behind(vs, DecodeList(c, elem, n - |vs|, 0, r.input, r.position))
      decreases n - helper.elementCounter
    {
      var more := helper.NextElement();
      if !more {
        break;
      }
      var one := Deserialize(r, elem);
      if one.Failure? {
        return Failure(one.error);
      }
      BehindOne(vs, one.value, DecodeList(c, elem, n - |vs| - 1, 0, r.input, r.position));
      vs := vs + [one.value];
    }
    assert vs + [] == vs;
    out := Success(vs);
  }

  method VisitFields(r: CdrReader, ts: seq<Ty>) returns (out: Result<seq<Val>>)
    requires r.Valid() && IsSerdeProgram(r.codec.wire.program) && forall t <- ts :: IsSerdeType(t)
    modifies r`position
    ensures r.Valid() && r.Did(out, DecodeFields(r.codec, ts, r.input, old(r.position)), old(r.position))
    decreases |r.input| - r.position, r.codec.wire.program.RankAll(ts), ts, 0
  {
    hide Decode, IsSerdeProgram, IsSerdeType;
    ghost var c, pos0 := r.codec, r.position;
    var helper := new SequenceHelper(|ts|);
    var vs: seq<Val> := [];
    assert ts[0..] == ts;
    BehindNothing(DecodeFields(c, ts, r.input, pos0));
    while true
      invariant r.Valid() && pos0 <= r.position
      invariant helper.elementCounter == |vs| <= |ts|
      invariant DecodeFields(c, ts, r.input, pos0) == Behind(vs, DecodeFields(c, ts[|vs|..], r.input, r.position))
      decreases |ts| - helper.elementCounter
    {
      var more := helper.NextElement();
      if !more {
        break;
      }
      assert ts[|vs|..][1..] == ts[|vs| + 1..];
      RankOfField(c.wire.program, ts, |vs|);
      var one := Deserialize(r, ts[|vs|]);
      if one.Failure? {
        return Failure(one.error);
      }
      BehindOne(vs, one.value, DecodeFields(c, ts[|vs| + 1..], r.input, r.position));
      vs := vs + [one.value];
    }
    assert vs + [] == vs;
    out := Success(vs);
  }

  // ----- the serde path as a whole ------------------------------------------------------

  // to_vec and from_bytes: the value comes back and every byte is consumed.
  method SerdeRoundTrip(wire: Wire, v: Val, t: Ty) returns (out: Result<Val>, consumed: nat)
    requires IsSerdeProgram(wire.program) && IsSerdeType(t)
    requires HasType(wire.program, v, t) && WithinLimits(wire.program, true, v, t)
    requires |Encode(0, Flat(wire, v, t))| <= USIZE_MAX
    ensures out == Success(v) && consumed == |Encode(0, Flat(wire, v, t))|
  {
    hide HasType, WithinLimits, Flat, Encode, Decode, IsSerdeProgram, IsSerdeType;
    var w := new CdrWriter(Vec([]), wire);
    Serialize(w, v, t);
    var r := new CdrReader(w.buffer.bytes, wire);
    WrittenRoundTrip(Codec(wire, Rust), v, t, [], []);
    assert [] + w.Contents() + [] == w.Contents() && [] + w.Contents() == w.Contents();
    out := Deserialize(r, t);
    consumed := r.position;
  }

  /**
   Both paths side by side, in either byte order: where the blocks of the generated code fit
   the order, two writers at the same position append the same bytes, one through the traits,
   copying plain elements in bulk, the other through serde, element by element.
   */
  method BothPathsAgree(a: CdrWriter, b: CdrWriter, v: Val, t: Ty)
    requires a != b && a.Valid() && b.Valid() && b.wire == LoopWireIn(a.wire.order, a.wire.program)
    requires a.Contents() == b.Contents() && a.Position() == b.Position()
    requires IsTraitProgram(a.wire.program) && IsTraitType(a.wire.program, t) && HasType(a.wire.program, v, t)
    requires AllBlocksFit(a.wire.order, a.wire.program) && BlocksFit(a.wire.order, a.wire.program, t)
    modifies a`buffer, b`buffer
    ensures a.Valid() && b.Valid() && a.Contents() == b.Contents() && a.Position() == b.Position()
    ensures a.Grew(old(a.Contents()), Flat(a.wire, v, t))
  {
    hide HasType, Flat, Encode, End, IsTraitType, IsTraitProgram, IsSerdeProgram, IsSerdeType;
    hide AllBlocksFit, BlocksFit, LoopedProgram;
    ghost var p, pos := a.wire.program, a.Position();
    LoopedIsSerde(t);
    LoopedProgramIsSerde(p);
    LoopedValue(p, v, t);
    BlocksAreLoops(a.wire.order, p, v, t, pos);
    CdrSerialize(a, v, t);
    Serialize(b, v, Looped(t));
  }

  // ----- raw bytes against Vec<u8> --------------------------------------------------------

  // `serialize_bytes` writes what the element path writes for the same Vec<u8>.
  lemma BytesAreASequence(w: Wire, bytes: Bytes, pos: nat)
    ensures Encode(pos, [LengthWord(w, |bytes|), Atom(1, bytes)])
         == Encode(pos, Flat(w, VList(OctetList(bytes)), TSeq(TPrim(U8))))
  {
    hide Encode, End;
    var prefix, vs := [LengthWord(w, |bytes|)], OctetList(bytes);
    var raw, list := [Atom(1, bytes)], FlatList(w, vs, TPrim(U8));
    assert prefix + raw == [LengthWord(w, |bytes|), Atom(1, bytes)];
    OneAtom(End(pos, prefix), Atom(1, bytes));
    PaddingAligns(End(pos, prefix), 1);
    assert Zeros(0) + bytes == bytes;
    OctetEncoding(w, bytes, End(pos, prefix));
    SameConcat(pos, prefix, raw, prefix, list);
  }

  /**
   `deserialize_bytes` against reading a Vec<u8>: the same bytes and the same end, except
   that only the latter refuses lengths over 100,000,000.
   */
  lemma BytesReadLikeASequence(wire: Wire, data: Bytes, pos: nat)
    requires pos <= |data|
    ensures var c := Codec(wire, Rust);
            var raw, list := DecodeByteSequence(c, data, pos), Decode(c, TSeq(TPrim(U8)), data, pos);
            if raw.Ok? && |raw.value| <= MAX_SEQUENCE_LENGTH
            then list == Ok(VList(OctetList(raw.value)), raw.pos)
            else list.Err?
  {
    hide DecodeWord, DecodeList;
    var c := Codec(wire, Rust);
    var n := DecodeWord(c, data, pos, 4);
    if n.Ok? {
      OctetsDecode(c, n.value, data, n.pos);
    }
  }
}
