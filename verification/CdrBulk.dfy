/**
 Bulk copies against element loops. A block of plain values is written and read
 as memory, aligned to the alignment of the element type as a whole. The element
 loop aligns number by number. On a little-endian host the two agree exactly when
 the first number asks for as much padding as the whole element.
 */
module CdrBulk {
  import opened CdrWire
  import opened CdrLayout
  import opened CdrTypes
  import opened CdrRoundTrip

  // ----- the same type without blocks -------------------------------------------

  function Looped(t: Ty): Ty {
    match t
    case TBulkSeq(elem) => TSeq(Looped(elem))
    case TBulkArray(n, elem) => TArray(n, Looped(elem))
    case TSeq(elem) => TSeq(Looped(elem))
    case TArray(n, elem) => TArray(n, Looped(elem))
    case TTuple(fields) => TTuple(LoopedAll(fields))
    case TOption(inner) => TOption(Looped(inner))
    case TEnum(variants) => TEnum(LoopedAll(variants))
    case TMap(key, value) => TMap(Looped(key), Looped(value))
    case _ => t
  }

  function LoopedAll(ts: seq<Ty>): (r: seq<Ty>)
    ensures |r| == |ts| && forall i | 0 <= i < |ts| :: r[i] == Looped(ts[i])
  {
    if ts == [] then [] else [Looped(ts[0])] + LoopedAll(ts[1..])
  }

  function LoopedTypes(p: Program): MessageTypes {
    MessageTypes(map name <- p.types :: LoopedAll(p.types[name]), p.rank)
  }

  lemma {:induction false} LoopedRank(p: Program, t: Ty)
    ensures LoopedTypes(p).Rank(Looped(t)) == p.Rank(t)
    decreases t, 0
  {
    match t
    case TBulkArray(_, elem) => LoopedRank(p, elem);
    case TArray(_, elem) => LoopedRank(p, elem);
    case TTuple(fields) => LoopedRankAll(p, fields);
    case _ =>
  }

  lemma {:induction false} LoopedRankAll(p: Program, ts: seq<Ty>)
    ensures LoopedTypes(p).RankAll(LoopedAll(ts)) == p.RankAll(ts)
    decreases ts, 0
  {
    if ts != [] {
      LoopedRank(p, ts[0]);
      LoopedRankAll(p, ts[1..]);
    }
  }

  function LoopedProgram(p: Program): (q: Program)
    ensures forall name :: q.Fields(name) == LoopedAll(p.Fields(name))
  {
    assert LoopedTypes(p).FiniteSize() by {
      forall name <- p.types ensures LoopedTypes(p).RankAll(LoopedTypes(p).types[name]) <= p.RankOf(name) {
        LoopedRankAll(p, p.types[name]);
      }
    }
    LoopedTypes(p)
  }

  // The writer that loops over elements, in the byte order of the host.
  function LoopWire(p: Program): Wire {
    Wire(Little, LoopedProgram(p))
  }

  // A typed value has the looped type as well.
  lemma {:induction false} LoopedValue(p: Program, v: Val, t: Ty)
    requires HasType(p, v, t)
    ensures HasType(LoopedProgram(p), v, Looped(t))
    decreases v, 1
  {
    hide IsBlockElement, LoopedProgram, AllHaveType, HaveTypes;
    match t
    case TSeq(elem) => LoopedList(p, v.items, elem);
    case TArray(_, elem) => LoopedList(p, v.items, elem);
    case TBulkSeq(elem) => LoopedList(p, v.items, elem);
    case TBulkArray(_, elem) => LoopedList(p, v.items, elem);
    case TMap(key, value) =>
      PairLooped(key, value);
      LoopedList(p, v.items, TTuple([key, value]));
    case TTuple(fields) => LoopedFields(p, v.items, fields);
    case TMsg(name) => LoopedFields(p, v.items, p.Fields(name));
    case TOption(inner) =>
      if v.VSome? {
        LoopedValue(p, v.value, inner);
      }
    case TEnum(variants) => LoopedValue(p, v.payload, variants[v.tag]);
    case _ =>
  }

  lemma {:induction false} LoopedList(p: Program, vs: seq<Val>, elem: Ty)
    requires AllHaveType(p, vs, elem)
    ensures AllHaveType(LoopedProgram(p), vs, Looped(elem))
    decreases vs, 0
  {
    hide HasType, LoopedProgram;
    forall i | 0 <= i < |vs| ensures HasType(LoopedProgram(p), vs[i], Looped(elem)) {
      LoopedValue(p, vs[i], elem);
    }
  }

  lemma {:induction false} LoopedFields(p: Program, vs: seq<Val>, ts: seq<Ty>)
    requires HaveTypes(p, vs, ts)
    ensures HaveTypes(LoopedProgram(p), vs, LoopedAll(ts))
    decreases vs, 0
  {
    hide HasType, LoopedProgram;
    forall i | 0 <= i < |vs| ensures HasType(LoopedProgram(p), vs[i], LoopedAll(ts)[i]) {
      LoopedValue(p, vs[i], ts[i]);
    }
  }

  lemma PairLooped(key: Ty, value: Ty)
    ensures Looped(TTuple([key, value])) == TTuple([Looped(key), Looped(value)])
  {
    assert LoopedAll([key, value]) == [Looped(key), Looped(value)];
  }

  // ----- alignment of plain types -------------------------------------------------

  lemma TwoTimes(k: nat, x: nat)
    requires x == 2 * k
    ensures x % 2 == 0
  {
  }

  lemma FourTimes(k: nat, x: nat)
    requires x == 4 * k
    ensures x % 4 == 0
  {
  }

  lemma EightTimes(k: nat, x: nat)
    requires x == 8 * k
    ensures x % 8 == 0
  {
  }

  lemma SumIsAligned(x: nat, y: nat, n: Boundary)
    requires x % n == 0 && y % n == 0
    ensures (x + y) % n == 0
  {
    if n == 8 {
      EightTimes(x / 8 + y / 8, x + y);
    } else if n == 4 {
      FourTimes(x / 4 + y / 4, x + y);
    } else if n == 2 {
      TwoTimes(x / 2 + y / 2, x + y);
    }
  }

  // A position on a boundary is on every smaller one.
  lemma SmallerBoundary(pos: nat, a: Boundary, b: Boundary)
    requires pos % b == 0 && a <= b
    ensures pos % a == 0
  {
    if b == 8 {
      FourTimes(2 * (pos / 8), pos);
      TwoTimes(4 * (pos / 8), pos);
    } else if b == 4 {
      TwoTimes(2 * (pos / 4), pos);
    }
    if a == 8 {
    } else if a == 4 {
    } else if a == 2 {
    }
  }

  lemma {:induction false} SizeIsAligned(p: Program, t: Ty)
    requires IsPlain(p, t)
    ensures SizeOf(p, t) % AlignOf(p, t) == 0
    decreases t, 0
  {
    match t
    case TArray(n, elem) => SliceSizeIsAligned(p, elem, n);
    case TBulkArray(n, elem) => SliceSizeIsAligned(p, elem, n);
    case _ =>
  }

  lemma {:induction false} SliceSizeIsAligned(p: Program, t: Ty, n: nat)
    requires IsPlain(p, t)
    ensures SizeOfSlice(p, t, n) % AlignOf(p, t) == 0
    decreases t, n + 1
  {
    if n > 0 {
      SizeIsAligned(p, t);
      SliceSizeIsAligned(p, t, n - 1);
      SumIsAligned(SizeOf(p, t), SizeOfSlice(p, t, n - 1), AlignOf(p, t));
    }
  }

  lemma {:induction false} SizeOfSliceIsAProduct(p: Program, t: Ty, n: nat)
    ensures SizeOfSlice(p, t, n) == n * SizeOf(p, t)
  {
    if n > 0 {
      SizeOfSliceIsAProduct(p, t, n - 1);
      var size := SizeOf(p, t);
      assert n * size == size + (n - 1) * size;
    }
  }

  // What makes each plain type plain.
  lemma PlainParts(p: Program, t: Ty)
    requires IsPlain(p, t)
    ensures match t
      case TPrim(prim) => prim != Bool && prim != Char
      case TArray(_, elem) => IsPlain(p, elem)
      case TBulkArray(_, elem) => IsPlain(p, elem) && SizeOf(p, elem) > 0
      case TTuple(fields) => ArePlain(p, fields) && IsPacked(p, fields)
      case TMsg(name) => ArePlain(p, p.Fields(name)) && IsPacked(p, p.Fields(name))
      case _ => false
  {
  }

  // ----- writing from an aligned position ---------------------------------------------

  /**
   From a position aligned for the type the element loop inserts no padding: what it writes
   is the memory of the value.
   */
  lemma {:induction false} AlignedLoop(p: Program, v: Val, t: Ty, pos: nat)
    requires IsPlain(p, t) && HasType(p, v, t) && pos % AlignOf(p, t) == 0
    ensures Encode(pos, Flat(LoopWire(p), v, Looped(t))) == Memory(p, v, t)
    decreases v, 2
  {
    hide FlatList, FlatFields, MemoryOfSlice, MemoryOfFields, LoopedProgram, LargestAlign;
    hide SizeOf, SizeOfAll, IsPacked, IsPlain, ArePlain, AllHaveType, HaveTypes;
    PlainParts(p, t);
    match t
    case TPrim(prim) =>
      PaddingAligns(pos, Width(prim));
      assert Flat(LoopWire(p), v, t)[1..] == [];
    case TArray(_, elem) => AlignedLoopOfSlice(p, v.items, elem, pos);
    case TBulkArray(_, elem) => AlignedLoopOfSlice(p, v.items, elem, pos);
    case TTuple(fields) => AlignedLoopOfStruct(p, v.items, fields, pos);
    case TMsg(name) => AlignedLoopOfStruct(p, v.items, p.Fields(name), pos);
  }

  lemma NextIsAligned(p: Program, t: Ty, pos: nat)
    requires IsPlain(p, t) && pos % AlignOf(p, t) == 0
    ensures (pos + SizeOf(p, t)) % AlignOf(p, t) == 0
  {
    hide IsPlain, AlignOf, SizeOf;
    SizeIsAligned(p, t);
    SumIsAligned(pos, SizeOf(p, t), AlignOf(p, t));
  }

  lemma FieldIsAligned(base: nat, offset: nat, a: Boundary, align: Boundary)
    requires base % align == 0 && a <= align && offset % a == 0
    ensures (base + offset) % a == 0
  {
    SmallerBoundary(base, a, align);
    SumIsAligned(base, offset, a);
  }

  lemma {:induction false} AlignedLoopOfSlice(p: Program, vs: seq<Val>, t: Ty, pos: nat)
    requires IsPlain(p, t) && AllHaveType(p, vs, t) && pos % AlignOf(p, t) == 0
    ensures Encode(pos, FlatList(LoopWire(p), vs, Looped(t))) == MemoryOfSlice(p, vs, t)
    decreases vs, 0
  {
    hide HasType, IsPlain, Memory, Flat, AlignOf, SizeOf, Encode, LoopedProgram, End;
    if vs == [] {
      NothingEncodes(pos);
    } else {
      AlignedLoop(p, vs[0], t, pos);
      MemoryRoundTrip(p, vs[0], t);
      NextIsAligned(p, t, pos);
      AlignedLoopOfSlice(p, vs[1..], t, pos + SizeOf(p, t));
      EncodeConcat(pos, Flat(LoopWire(p), vs[0], Looped(t)), FlatList(LoopWire(p), vs[1..], Looped(t)));
    }
  }

  lemma {:induction false} AlignedLoopOfStruct(p: Program, vs: seq<Val>, ts: seq<Ty>, pos: nat)
    requires ArePlain(p, ts) && IsPacked(p, ts) && HaveTypes(p, vs, ts) && pos % LargestAlign(p, ts) == 0
    ensures Encode(pos, FlatFields(LoopWire(p), vs, LoopedAll(ts))) == MemoryOfFields(p, vs, ts)
    decreases vs, 1
  {
    hide ArePlain, HaveTypes, LargestAlign, Encode, FlatFields, MemoryOfFields;
    AlignedLoopOfFields(p, vs, ts, pos, 0, LargestAlign(p, ts));
  }

  // The fields of a packed struct, from an offset on.
  lemma {:induction false} AlignedLoopOfFields(
    p: Program, vs: seq<Val>, ts: seq<Ty>, base: nat, offset: nat, align: Boundary)
    requires ArePlain(p, ts) && HaveTypes(p, vs, ts) && FitsFrom(p, ts, offset)
    requires base % align == 0 && LargestAlign(p, ts) <= align
    ensures Encode(base + offset, FlatFields(LoopWire(p), vs, LoopedAll(ts))) == MemoryOfFields(p, vs, ts)
    decreases vs, 0
  {
    hide HasType, IsPlain, Memory, Flat, AlignOf, SizeOf, Encode, LoopedProgram, End;
    if vs == [] {
      NothingEncodes(base + offset);
    } else {
      FieldIsAligned(base, offset, AlignOf(p, ts[0]), align);
      AlignedLoop(p, vs[0], ts[0], base + offset);
      MemoryRoundTrip(p, vs[0], ts[0]);
      AlignedLoopOfFields(p, vs[1..], ts[1..], base, offset + SizeOf(p, ts[0]), align);
      EncodeConcat(base + offset, Flat(LoopWire(p), vs[0], Looped(ts[0])),
                   FlatFields(LoopWire(p), vs[1..], LoopedAll(ts[1..])));
    }
  }

  lemma NothingEncodes(pos: nat)
    ensures Encode(pos, []) == []
  {
  }

  // ----- the first number ---------------------------------------------------------------

  // The first atom of a plain value, if the type has a number at all.
  lemma {:induction false} FirstAtom(p: Program, v: Val, t: Ty)
    requires IsPlain(p, t) && HasType(p, v, t)
    ensures var atoms := Flat(LoopWire(p), v, Looped(t));
      if FirstAlign(p, t) == 0 then atoms == []
      else atoms != [] && atoms[0].align == FirstAlign(p, t) == |atoms[0].bytes|
    decreases v, 1
  {
    hide FlatList, FlatFields, LoopedProgram, IsPlain, ArePlain;
    PlainParts(p, t);
    match t
    case TPrim(_) =>
    case TArray(_, elem) => FirstAtomOfSlice(p, v.items, elem);
    case TBulkArray(_, elem) => FirstAtomOfSlice(p, v.items, elem);
    case TTuple(fields) => FirstAtomOfFields(p, v.items, fields);
    case TMsg(name) => FirstAtomOfFields(p, v.items, p.Fields(name));
  }

  lemma {:induction false} FirstAtomOfSlice(p: Program, vs: seq<Val>, t: Ty)
    requires IsPlain(p, t) && AllHaveType(p, vs, t)
    ensures var atoms := FlatList(LoopWire(p), vs, Looped(t));
      if vs == [] || FirstAlign(p, t) == 0 then atoms == []
      else atoms != [] && atoms[0].align == FirstAlign(p, t) == |atoms[0].bytes|
    decreases vs, 0
  {
    hide HasType, IsPlain, Flat, FirstAlign, LoopedProgram;
    if vs != [] {
      FirstAtom(p, vs[0], t);
      FirstAtomOfSlice(p, vs[1..], t);
    }
  }

  lemma {:induction false} FirstAtomOfFields(p: Program, vs: seq<Val>, ts: seq<Ty>)
    requires ArePlain(p, ts) && HaveTypes(p, vs, ts)
    ensures var atoms := FlatFields(LoopWire(p), vs, LoopedAll(ts));
      if FirstAlignOfAll(p, ts) == 0 then atoms == []
      else atoms != [] && atoms[0].align == FirstAlignOfAll(p, ts) == |atoms[0].bytes|
    decreases vs, 0
  {
    hide HasType, IsPlain, Flat, FirstAlign, LoopedProgram;
    if vs != [] {
      FirstAtom(p, vs[0], ts[0]);
      FirstAtomOfFields(p, vs[1..], ts[1..]);
    }
  }

  // The first number asks for no more than the whole, and it is missing when there are no bytes.
  lemma {:induction false} FirstIsSmaller(p: Program, t: Ty)
    requires IsPlain(p, t)
    ensures FirstAlign(p, t) <= AlignOf(p, t) && FirstAlign(p, t) in {0, 1, 2, 4, 8}
    ensures FirstAlign(p, t) == 0 <==> SizeOf(p, t) == 0
    decreases p.Rank(t), t, 0
  {
    match t
    case TPrim(_) =>
    case TArray(n, elem) => FirstIsSmaller(p, elem); SliceHasBytes(p, elem, n);
    case TBulkArray(n, elem) => FirstIsSmaller(p, elem); SliceHasBytes(p, elem, n);
    case TTuple(fields) => FirstOfAllIsSmaller(p, fields);
    case TMsg(name) => FirstOfAllIsSmaller(p, p.Fields(name));
  }

  lemma {:induction false} FirstOfAllIsSmaller(p: Program, ts: seq<Ty>)
    requires ArePlain(p, ts)
    ensures FirstAlignOfAll(p, ts) <= LargestAlign(p, ts) && FirstAlignOfAll(p, ts) in {0, 1, 2, 4, 8}
    ensures FirstAlignOfAll(p, ts) == 0 <==> SizeOfAll(p, ts) == 0
    decreases p.RankAll(ts), ts, 0
  {
    if ts != [] {
      FirstIsSmaller(p, ts[0]);
      FirstOfAllIsSmaller(p, ts[1..]);
    }
  }

  lemma {:induction false} SliceHasBytes(p: Program, t: Ty, n: nat)
    ensures SizeOfSlice(p, t, n) > 0 <==> n > 0 && SizeOf(p, t) > 0
  {
    if n > 1 {
      SliceHasBytes(p, t, n - 1);
    }
  }

  // Padding in front of the first atom can be split off.
  lemma SkipToTheFirst(pos: nat, atoms: seq<Atom>)
    requires atoms != []
    ensures var pad := Padding(pos, atoms[0].align);
      Encode(pos, atoms) == Zeros(pad) + Encode(pos + pad, atoms)
  {
    hide Padding, Zeros, Encode, End;
    var a, rest := atoms[0], atoms[1..];
    var pad := Padding(pos, a.align);
    var q := pos + pad;
    PaddingAligns(pos, a.align);
    PaddingAligns(q, a.align);
    OneAtom(pos, a);
    OneAtom(q, a);
    NothingInFront(a.bytes);
    assert atoms == [a] + rest;
    EncodeConcat(pos, [a], rest);
    EncodeConcat(q, [a], rest);
    Associative(Zeros(pad), a.bytes, Encode(End(q, [a]), rest));
  }

  lemma NothingInFront(s: Bytes)
    ensures Zeros(0) + s == s
  {
  }

  // ----- the write condition --------------------------------------------------------------

  // The padding the element loop writes in front of n plain values.
  function LoopPadding(p: Program, t: Ty, n: nat, pos: nat): nat
    requires IsPlain(p, t)
  {
    FirstIsSmaller(p, t);
    if n == 0 || FirstAlign(p, t) == 0 then 0 else Padding(pos, FirstAlign(p, t))
  }

  // The block starts where the loop would start.
  predicate BlockFits(p: Program, t: Ty, n: nat, pos: nat)
    requires IsPlain(p, t)
  {
    Padding(pos, AlignOf(p, t)) == LoopPadding(p, t, n, pos)
  }

  lemma FittingBlockMatches(p: Program, t: Ty, vs: seq<Val>, pos: nat)
    requires IsPlain(p, t) && AllHaveType(p, vs, t) && BlockFits(p, t, |vs|, pos)
    ensures Encode(pos, [BlockOf(p, vs, t)]) == Encode(pos, FlatList(LoopWire(p), vs, Looped(t)))
  {
    hide AllHaveType, IsPlain, FlatList, AlignOf, FirstAlign, MemoryOfSlice;
    hide Padding, Zeros, Encode, BlockOf, LoopWire, Looped;
    var pad := Padding(pos, AlignOf(p, t));
    var atoms := FlatList(LoopWire(p), vs, Looped(t));
    BlockBytes(p, vs, t, pos);
    FirstAtomOfSlice(p, vs, t);
    FirstIsSmaller(p, t);
    PaddingAligns(pos, AlignOf(p, t));
    AlignedLoopOfSlice(p, vs, t, pos + pad);
    if atoms != [] {
      SkipToTheFirst(pos, atoms);
    } else {
      NothingInFront(MemoryOfSlice(p, vs, t));
    }
  }

  lemma BlockBytes(p: Program, vs: seq<Val>, t: Ty, pos: nat)
    ensures Encode(pos, [BlockOf(p, vs, t)]) == Zeros(Padding(pos, AlignOf(p, t))) + MemoryOfSlice(p, vs, t)
  {
    OneAtom(pos, BlockOf(p, vs, t));
  }

  lemma OneAtom(pos: nat, a: Atom)
    ensures Encode(pos, [a]) == Zeros(Padding(pos, a.align)) + a.bytes
    ensures End(pos, [a]) == pos + Padding(pos, a.align) + |a.bytes|
  {
    assert [a][1..] == [] && a.bytes + [] == a.bytes;
  }

  // A value whose numbers are all one, or, when `full`, have all their bytes one.
  function Sample(p: Program, t: Ty, full: bool): Val
    decreases p.Rank(t), t, 0
  {
    match t
    case TPrim(prim) => VPrim(if full then Repunit(Width(prim)) else 1)
    case TArray(n, elem) => VList(SampleSlice(p, elem, n, full))
    case TBulkArray(n, elem) => VList(SampleSlice(p, elem, n, full))
    case TTuple(fields) => VList(SampleFields(p, fields, full))
    case TMsg(name) => VList(SampleFields(p, p.Fields(name), full))
    case _ => VList([])
  }

  function SampleSlice(p: Program, t: Ty, n: nat, full: bool): (r: seq<Val>)
    ensures |r| == n && forall i | 0 <= i < n :: r[i] == Sample(p, t, full)
    decreases p.Rank(t), t, n + 1
  {
    if n == 0 then [] else [Sample(p, t, full)] + SampleSlice(p, t, n - 1, full)
  }

  function SampleFields(p: Program, ts: seq<Ty>, full: bool): (r: seq<Val>)
    ensures |r| == |ts|
    decreases p.RankAll(ts), ts, 0
  {
    if ts == [] then [] else [Sample(p, ts[0], full)] + SampleFields(p, ts[1..], full)
  }

  lemma {:induction false} SampleHasType(p: Program, t: Ty, full: bool)
    requires IsPlain(p, t)
    ensures HasType(p, Sample(p, t, full), t)
    decreases p.Rank(t), t, 0
  {
    hide IsPacked;
    match t
    case TPrim(prim) => RepunitBytes(Width(prim));
    case TArray(_, elem) => SampleHasType(p, elem, full);
    case TBulkArray(_, elem) => SampleHasType(p, elem, full);
    case TTuple(fields) => SampleFieldsHaveTypes(p, fields, full);
    case TMsg(name) => SampleFieldsHaveTypes(p, p.Fields(name), full);
  }

  lemma {:induction false} SampleFieldsHaveTypes(p: Program, ts: seq<Ty>, full: bool)
    requires ArePlain(p, ts)
    ensures HaveTypes(p, SampleFields(p, ts, full), ts)
    decreases p.RankAll(ts), ts, 0
  {
    hide IsPlain, HasType;
    if ts != [] {
      SampleHasType(p, ts[0], full);
      SampleFieldsHaveTypes(p, ts[1..], full);
    }
  }

  // The first byte of a one is not the zero of a padding.
  lemma {:induction false} SampleStartsWithOne(p: Program, t: Ty, full: bool)
    requires IsPlain(p, t) && FirstAlign(p, t) > 0
    ensures var atoms := Flat(LoopWire(p), Sample(p, t, full), Looped(t));
      atoms != [] && atoms[0].bytes != [] && atoms[0].bytes[0] == 1
    decreases p.Rank(t), t, 0
  {
    hide IsPacked, LoopedProgram, IsPlain, ArePlain;
    PlainParts(p, t);
    match t
    case TPrim(prim) => RepunitBytes(Width(prim));
    case TArray(n, elem) => SampleStartsWithOne(p, elem, full);
    case TBulkArray(n, elem) => SampleStartsWithOne(p, elem, full);
    case TTuple(fields) => SampleFieldsStartWithOne(p, fields, full);
    case TMsg(name) => SampleFieldsStartWithOne(p, p.Fields(name), full);
  }

  lemma {:induction false} SampleFieldsStartWithOne(p: Program, ts: seq<Ty>, full: bool)
    requires ArePlain(p, ts) && FirstAlignOfAll(p, ts) > 0
    ensures var atoms := FlatFields(LoopWire(p), SampleFields(p, ts, full), LoopedAll(ts));
      atoms != [] && atoms[0].bytes != [] && atoms[0].bytes[0] == 1
    decreases p.RankAll(ts), ts, 0
  {
    hide IsPlain, FirstAlign, Flat, LoopedProgram;
    if FirstAlign(p, ts[0]) > 0 {
      SampleStartsWithOne(p, ts[0], full);
    } else {
      SampleHasType(p, ts[0], full);
      FirstAtom(p, Sample(p, ts[0], full), ts[0]);
      SampleFieldsStartWithOne(p, ts[1..], full);
    }
  }

  lemma PaddingGrows(pos: nat, a: Boundary, b: Boundary)
    requires a <= b
    ensures Padding(pos, a) <= Padding(pos, b)
  {
    PaddingAligns(pos, b);
    SmallerBoundary(pos + Padding(pos, b), a, b);
    PaddingIsLeast(pos, a, pos + Padding(pos, b));
  }

  lemma MisplacedBlockDiffers(p: Program, t: Ty, n: nat, pos: nat)
    requires IsPlain(p, t) && !BlockFits(p, t, n, pos)
    ensures var vs := SampleSlice(p, t, n, true);
      AllHaveType(p, vs, t) && Encode(pos, [BlockOf(p, vs, t)]) != Encode(pos, FlatList(LoopWire(p), vs, Looped(t)))
  {
    hide HasType, IsPlain, Flat, AlignOf, FirstAlign, Padding, LoopedProgram, MemoryOfSlice;
    var vs := SampleSlice(p, t, n, true);
    SampleHasType(p, t, true);
    FirstAtomOfSlice(p, vs, t);
    FirstIsSmaller(p, t);
    var bulk, atoms := Encode(pos, [BlockOf(p, vs, t)]), FlatList(LoopWire(p), vs, Looped(t));
    OneAtom(pos, BlockOf(p, vs, t));
    if atoms != [] {
      var early := Padding(pos, FirstAlign(p, t));
      PaddingGrows(pos, FirstAlign(p, t), AlignOf(p, t));
      SampleStartsWithOne(p, t, true);
      FirstByteOfAtoms(pos, atoms);
      assert bulk[early] == 0;
    }
  }

  lemma FirstByteOfAtoms(pos: nat, atoms: seq<Atom>)
    requires atoms != [] && atoms[0].bytes != []
    ensures var pad := Padding(pos, atoms[0].align);
      pad < |Encode(pos, atoms)| && Encode(pos, atoms)[pad] == atoms[0].bytes[0]
  {
  }

  /**
   `write_pod_slice` against the element loop, for slices of n plain values at a position:
   the bytes are the same for all values exactly when the block starts where the loop would.
   */
  lemma BulkWriteMatchesLoop(p: Program, t: Ty, n: nat, pos: nat)
    requires IsPlain(p, t)
    ensures BlockFits(p, t, n, pos) <==>
      forall vs | |vs| == n && AllHaveType(p, vs, t) ::
        Encode(pos, [BlockOf(p, vs, t)]) == Encode(pos, FlatList(LoopWire(p), vs, Looped(t)))
  {
    hide IsPlain, AllHaveType, BlockFits, BlockOf, FlatList;
    if BlockFits(p, t, n, pos) {
      forall vs | |vs| == n && AllHaveType(p, vs, t)
        ensures Encode(pos, [BlockOf(p, vs, t)]) == Encode(pos, FlatList(LoopWire(p), vs, Looped(t)))
      {
        FittingBlockMatches(p, t, vs, pos);
      }
    } else {
      MisplacedBlockDiffers(p, t, n, pos);
    }
  }

  // At every position: the first number must have the alignment of the whole element.
  lemma FitsEverywhereExactly(p: Program, t: Ty, n: nat)
    requires IsBlockElement(p, t) && n > 0
    ensures (forall pos: nat :: BlockFits(p, t, n, pos)) <==> FirstAlign(p, t) == AlignOf(p, t)
  {
    hide IsPlain, AlignOf, FirstAlign, SizeOf;
    FirstIsSmaller(p, t);
    var first, whole := FirstAlign(p, t), AlignOf(p, t);
    if first < whole {
      PaddingAligns(first, first);
      assert first % whole != 0;
      PaddingAligns(first, whole);
      assert !BlockFits(p, t, n, first);
    }
  }

  // ----- reading from an aligned position ---------------------------------------------------

  // The reader that loops over elements, in the byte order of the host.
  function LoopReader(p: Program): Codec {
    Codec(LoopWire(p), Rust)
  }

  /**
   From a position aligned for the type the element loop reads the memory of a value, or
   fails when the memory is not all there.
   */
  lemma {:induction false} AlignedRead(p: Program, t: Ty, data: Bytes, pos: nat)
    requires IsPlain(p, t) && pos <= |data| && pos % AlignOf(p, t) == 0
    ensures var end := pos + SizeOf(p, t);
      Decode(LoopReader(p), Looped(t), data, pos)
      == if end <= |data| then Ok(FromMemory(p, t, data[pos..end]), end) else Err(UnexpectedEof)
    decreases p.Rank(t), t, 0
  {
    hide DecodeList, DecodeFields, SliceFromMemory, FieldsFromMemory, LoopedProgram;
    hide LargestAlign, FitsFrom, SizeOfAll, SizeOfSlice, IsPlain, ArePlain;
    PlainParts(p, t);
    match t
    case TPrim(prim) => PaddingAligns(pos, Width(prim));
    case TArray(n, elem) => AlignedReadOfSlice(p, elem, n, data, pos);
    case TBulkArray(n, elem) => AlignedReadOfSlice(p, elem, n, data, pos);
    case TTuple(fields) => AlignedReadOfFields(p, fields, data, pos, 0, LargestAlign(p, fields));
    case TMsg(name) => AlignedReadOfFields(p, p.Fields(name), data, pos, 0, LargestAlign(p, p.Fields(name)));
  }

  lemma {:induction false} AlignedReadOfSlice(p: Program, t: Ty, n: nat, data: Bytes, pos: nat)
    requires IsPlain(p, t) && pos <= |data| && pos % AlignOf(p, t) == 0
    ensures var end := pos + SizeOfSlice(p, t, n);
      DecodeList(LoopReader(p), Looped(t), n, 0, data, pos)
      == if end <= |data| then Ok(SliceFromMemory(p, t, n, data[pos..end]), end) else Err(UnexpectedEof)
    decreases p.Rank(t), t, n + 1
  {
    hide Decode, IsPlain, FromMemory, AlignOf, SizeOf, LoopedProgram;
    if n > 0 {
      var q, end := pos + SizeOf(p, t), pos + SizeOfSlice(p, t, n);
      AlignedRead(p, t, data, pos);
      if q <= |data| {
        NextIsAligned(p, t, pos);
        AlignedReadOfSlice(p, t, n - 1, data, q);
        if end <= |data| {
          SplitSlice(data, pos, q, end);
        }
      }
    }
  }

  lemma {:induction false} AlignedReadOfFields(
    p: Program, ts: seq<Ty>, data: Bytes, base: nat, offset: nat, align: Boundary)
    requires ArePlain(p, ts) && base + offset <= |data| && FitsFrom(p, ts, offset)
    requires base % align == 0 && LargestAlign(p, ts) <= align
    ensures var pos := base + offset; var end := pos + SizeOfAll(p, ts);
      DecodeFields(LoopReader(p), LoopedAll(ts), data, pos)
      == if end <= |data| then Ok(FieldsFromMemory(p, ts, data[pos..end]), end) else Err(UnexpectedEof)
    decreases p.RankAll(ts), ts, 1
  {
    hide Decode, IsPlain, FromMemory, AlignOf, SizeOf, LoopedProgram;
    if ts != [] {
      var pos := base + offset;
      var q, end := pos + SizeOf(p, ts[0]), pos + SizeOfAll(p, ts);
      FieldIsAligned(base, offset, AlignOf(p, ts[0]), align);
      AlignedRead(p, ts[0], data, pos);
      if q <= |data| {
        AlignedReadOfFields(p, ts[1..], data, base, offset + SizeOf(p, ts[0]), align);
        if end <= |data| {
          SplitSlice(data, pos, q, end);
        }
      }
    }
  }

  lemma SplitSlice(data: Bytes, from: nat, middle: nat, to: nat)
    requires from <= middle <= to <= |data|
    ensures data[from..to][..middle - from] == data[from..middle]
    ensures data[from..to][middle - from..] == data[middle..to]
  {
  }

  // ----- reading from anywhere ----------------------------------------------------------------

  // The numbers in a value, in order.
  function Numbers(v: Val): seq<nat> {
    match v
    case VPrim(bits) => [bits]
    case VList(items) => NumbersOfAll(items)
    case _ => []
  }

  function NumbersOfAll(vs: seq<Val>): seq<nat> {
    if vs == [] then [] else Numbers(vs[0]) + NumbersOfAll(vs[1..])
  }

  // A type without numbers is read from no bytes.
  lemma {:induction false} ReadsNothing(p: Program, t: Ty, data: Bytes, pos: nat)
    requires IsPlain(p, t) && FirstAlign(p, t) == 0 && pos <= |data|
    ensures SizeOf(p, t) == 0
    ensures Decode(LoopReader(p), Looped(t), data, pos) == Ok(FromMemory(p, t, []), pos)
    decreases p.Rank(t), t, 0
  {
    hide DecodeList, DecodeFields, SliceFromMemory, FieldsFromMemory, LoopedProgram;
    FirstIsSmaller(p, t);
    match t
    case TArray(n, elem) => SliceReadsNothing(p, elem, n, data, pos);
    case TBulkArray(n, elem) =>
      FirstIsSmaller(p, elem);
      if n == 0 {
        SliceReadsNothing(p, elem, 0, data, pos);
      }
    case TTuple(fields) => FieldsReadNothing(p, fields, data, pos);
    case TMsg(name) => FieldsReadNothing(p, p.Fields(name), data, pos);
  }

  lemma {:induction false} SliceReadsNothing(p: Program, t: Ty, n: nat, data: Bytes, pos: nat)
    requires IsPlain(p, t) && (n == 0 || FirstAlign(p, t) == 0) && pos <= |data|
    ensures SizeOfSlice(p, t, n) == 0
    ensures DecodeList(LoopReader(p), Looped(t), n, 0, data, pos) == Ok(SliceFromMemory(p, t, n, []), pos)
    decreases p.Rank(t), t, n + 1
  {
    hide Decode, IsPlain, FromMemory, FirstAlign, LoopedProgram;
    if n > 0 {
      ReadsNothing(p, t, data, pos);
      SliceReadsNothing(p, t, n - 1, data, pos);
    }
  }

  lemma {:induction false} FieldsReadNothing(p: Program, ts: seq<Ty>, data: Bytes, pos: nat)
    requires ArePlain(p, ts) && FirstAlignOfAll(p, ts) == 0 && pos <= |data|
    ensures SizeOfAll(p, ts) == 0
    ensures DecodeFields(LoopReader(p), LoopedAll(ts), data, pos) == Ok(FieldsFromMemory(p, ts, []), pos)
    decreases p.RankAll(ts), ts, 0
  {
    hide Decode, IsPlain, FromMemory, FirstAlign, LoopedProgram;
    if ts != [] {
      ReadsNothing(p, ts[0], data, pos);
      FieldsReadNothing(p, ts[1..], data, pos);
    }
  }

  // Where the first number is read from.
  function FirstNumberAt(first: nat, pos: nat): nat
    requires first in {1, 2, 4, 8}
  {
    pos + Padding(pos, first)
  }

  lemma NumberReadSkips(c: Codec, prim: Prim, data: Bytes, pos: nat)
    ensures var q := FirstNumberAt(Width(prim), pos);
      DecodePrim(c, prim, data, pos) == if q <= |data| then DecodePrim(c, prim, data, q) else Err(UnexpectedEof)
  {
    hide NumberValue, Padding;
    PaddingAligns(pos, Width(prim));
    PaddingAligns(FirstNumberAt(Width(prim), pos), Width(prim));
  }

  // Reading from pos is reading from behind the padding of the first number.
  lemma {:induction false} ReadSkips(p: Program, t: Ty, data: Bytes, pos: nat)
    requires IsPlain(p, t) && FirstAlign(p, t) in {1, 2, 4, 8} && pos <= |data|
    ensures var q := FirstNumberAt(FirstAlign(p, t), pos);
      Decode(LoopReader(p), Looped(t), data, pos)
      == if q <= |data| then Decode(LoopReader(p), Looped(t), data, q) else Err(UnexpectedEof)
    decreases p.Rank(t), t, 0
  {
    hide DecodeList, DecodeFields, DecodePrim, LoopedProgram, SizeOf, IsPacked, IsPlain, ArePlain, FirstNumberAt;
    PlainParts(p, t);
    match t
    case TPrim(prim) => NumberReadSkips(LoopReader(p), prim, data, pos);
    case TArray(n, elem) => SliceReadSkips(p, elem, n, data, pos);
    case TBulkArray(n, elem) => SliceReadSkips(p, elem, n, data, pos);
    case TTuple(fields) => FieldsReadSkip(p, fields, data, pos);
    case TMsg(name) => FieldsReadSkip(p, p.Fields(name), data, pos);
  }

  lemma {:induction false} SliceReadSkips(p: Program, t: Ty, n: nat, data: Bytes, pos: nat)
    requires IsPlain(p, t) && n > 0 && FirstAlign(p, t) in {1, 2, 4, 8} && pos <= |data|
    ensures var q := FirstNumberAt(FirstAlign(p, t), pos);
      DecodeList(LoopReader(p), Looped(t), n, 0, data, pos)
      == if q <= |data| then DecodeList(LoopReader(p), Looped(t), n, 0, data, q) else Err(UnexpectedEof)
    decreases p.Rank(t), t, 1
  {
    hide Decode, IsPlain, FirstAlign, LoopedProgram, FirstNumberAt;
    ReadSkips(p, t, data, pos);
  }

  lemma {:induction false} FieldsReadSkip(p: Program, ts: seq<Ty>, data: Bytes, pos: nat)
    requires ArePlain(p, ts) && FirstAlignOfAll(p, ts) in {1, 2, 4, 8} && pos <= |data|
    ensures var q := FirstNumberAt(FirstAlignOfAll(p, ts), pos);
      DecodeFields(LoopReader(p), LoopedAll(ts), data, pos)
      == if q <= |data| then DecodeFields(LoopReader(p), LoopedAll(ts), data, q) else Err(UnexpectedEof)
    decreases p.RankAll(ts), ts, 0
  {
    hide Decode, IsPlain, FirstAlign, FromMemory, LoopedProgram, FirstNumberAt;
    var q := FirstNumberAt(FirstAlignOfAll(p, ts), pos);
    FirstIsSmaller(p, ts[0]);
    if FirstAlign(p, ts[0]) > 0 {
      ReadSkips(p, ts[0], data, pos);
    } else {
      ReadsNothing(p, ts[0], data, pos);
      FieldsReadSkip(p, ts[1..], data, pos);
      if q <= |data| {
        ReadsNothing(p, ts[0], data, q);
      }
    }
  }

  // What the first number of a value read by the loop is.
  lemma {:induction false} ReadsFirstNumber(p: Program, t: Ty, data: Bytes, pos: nat)
    requires IsPlain(p, t) && pos <= |data| && FirstAlign(p, t) in {1, 2, 4, 8}
    requires Decode(LoopReader(p), Looped(t), data, pos).Ok?
    ensures var q := FirstNumberAt(FirstAlign(p, t), pos);
      var numbers := Numbers(Decode(LoopReader(p), Looped(t), data, pos).value);
      q + FirstAlign(p, t) <= |data| && numbers != [] && numbers[0] == LittleValue(data[q..q + FirstAlign(p, t)])
    decreases p.Rank(t), t, 0
  {
    hide DecodeList, DecodeFields, DecodePrim, LoopedProgram, Padding, LittleValue, SizeOf, IsPacked, IsPlain, ArePlain;
    PlainParts(p, t);
    match t
    case TPrim(prim) => PrimReadsNumber(p, prim, data, pos);
    case TArray(n, elem) => SliceReadsFirstNumber(p, elem, n, data, pos);
    case TBulkArray(n, elem) => SliceReadsFirstNumber(p, elem, n, data, pos);
    case TTuple(fields) => FieldsReadFirstNumber(p, fields, data, pos);
    case TMsg(name) => FieldsReadFirstNumber(p, p.Fields(name), data, pos);
  }

  lemma PrimReadsNumber(p: Program, prim: Prim, data: Bytes, pos: nat)
    requires prim != Bool && prim != Char && DecodePrim(LoopReader(p), prim, data, pos).Ok?
    ensures var q := pos + Padding(pos, Width(prim));
      q + Width(prim) <= |data|
      && DecodePrim(LoopReader(p), prim, data, pos).value == VPrim(LittleValue(data[q..q + Width(prim)]))
  {
    hide Padding, LittleValue;
  }

  lemma {:induction false} SliceReadsFirstNumber(p: Program, t: Ty, n: nat, data: Bytes, pos: nat)
    requires IsPlain(p, t) && n > 0 && pos <= |data| && FirstAlign(p, t) in {1, 2, 4, 8}
    requires DecodeList(LoopReader(p), Looped(t), n, 0, data, pos).Ok?
    ensures var q := FirstNumberAt(FirstAlign(p, t), pos);
      var numbers := NumbersOfAll(DecodeList(LoopReader(p), Looped(t), n, 0, data, pos).value);
      q + FirstAlign(p, t) <= |data| && numbers != [] && numbers[0] == LittleValue(data[q..q + FirstAlign(p, t)])
    decreases p.Rank(t), t, 1
  {
    hide Decode, IsPlain, FirstAlign, LoopedProgram, FirstNumberAt, LittleValue, Numbers;
    ReadsFirstNumber(p, t, data, pos);
  }

  lemma {:induction false} FieldsReadFirstNumber(p: Program, ts: seq<Ty>, data: Bytes, pos: nat)
    requires ArePlain(p, ts) && pos <= |data| && FirstAlignOfAll(p, ts) in {1, 2, 4, 8}
    requires DecodeFields(LoopReader(p), LoopedAll(ts), data, pos).Ok?
    ensures var q := FirstNumberAt(FirstAlignOfAll(p, ts), pos);
      var numbers := NumbersOfAll(DecodeFields(LoopReader(p), LoopedAll(ts), data, pos).value);
      q + FirstAlignOfAll(p, ts) <= |data| && numbers != []
      && numbers[0] == LittleValue(data[q..q + FirstAlignOfAll(p, ts)])
    decreases p.RankAll(ts), ts, 0
  {
    hide Decode, IsPlain, FirstAlign, FromMemory, LoopedProgram, FirstNumberAt, LittleValue, Numbers;
    FirstIsSmaller(p, ts[0]);
    if FirstAlign(p, ts[0]) > 0 {
      ReadsFirstNumber(p, ts[0], data, pos);
    } else {
      ReadsNothing(p, ts[0], data, pos);
      NoNumbers(p, ts[0]);
      FieldsReadFirstNumber(p, ts[1..], data, pos);
    }
  }

  lemma {:induction false} NoNumbers(p: Program, t: Ty)
    requires IsPlain(p, t) && FirstAlign(p, t) == 0 && SizeOf(p, t) == 0
    ensures Numbers(FromMemory(p, t, [])) == []
    decreases p.Rank(t), t, 0
  {
    match t
    case TArray(n, elem) => NoNumbersInSlice(p, elem, n);
    case TBulkArray(n, elem) =>
      FirstIsSmaller(p, elem);
      if n == 0 {
        NoNumbersInSlice(p, elem, 0);
      }
    case TTuple(fields) => NoNumbersInFields(p, fields);
    case TMsg(name) => NoNumbersInFields(p, p.Fields(name));
  }

  lemma {:induction false} NoNumbersInSlice(p: Program, t: Ty, n: nat)
    requires IsPlain(p, t) && (n == 0 || FirstAlign(p, t) == 0) && SizeOfSlice(p, t, n) == 0
    ensures NumbersOfAll(SliceFromMemory(p, t, n, [])) == []
    decreases p.Rank(t), t, n + 1
  {
    hide IsPlain, FirstAlign, SizeOf, FromMemory, Numbers;
    if n > 0 {
      NoNumbers(p, t);
      assert SliceFromMemory(p, t, n, []) == [FromMemory(p, t, [])] + SliceFromMemory(p, t, n - 1, []);
      NoNumbersInSlice(p, t, n - 1);
    }
  }

  lemma {:induction false} NoNumbersInFields(p: Program, ts: seq<Ty>)
    requires ArePlain(p, ts) && FirstAlignOfAll(p, ts) == 0 && SizeOfAll(p, ts) == 0
    ensures NumbersOfAll(FieldsFromMemory(p, ts, [])) == []
    decreases p.RankAll(ts), ts, 0
  {
    hide IsPlain, FirstAlign, SizeOf, FromMemory, Numbers;
    if ts != [] {
      NoNumbers(p, ts[0]);
      NoNumbersInFields(p, ts[1..]);
    }
  }

  // ----- the read condition -----------------------------------------------------------------------

  // The block read is the loop from the aligned position.
  lemma BlockReadIsAlignedLoop(p: Program, t: Ty, n: nat, data: Bytes, pos: nat)
    requires IsPlain(p, t) && n > 0 && pos <= |data|
    ensures var q := pos + Padding(pos, AlignOf(p, t));
      DecodeBlock(p, t, n, data, pos)
      == if q <= |data| then DecodeList(LoopReader(p), Looped(t), n, 0, data, q) else Err(UnexpectedEof)
  {
    hide DecodeList, IsPlain, SliceFromMemory, AlignOf, SizeOfSlice, Padding, LoopReader, Looped;
    var q := pos + Padding(pos, AlignOf(p, t));
    PaddingAligns(pos, AlignOf(p, t));
    if q <= |data| {
      AlignedReadOfSlice(p, t, n, data, q);
    }
  }

  lemma FittingReadMatches(p: Program, t: Ty, n: nat, data: Bytes, pos: nat)
    requires IsPlain(p, t) && pos <= |data| && (n == 0 || BlockFits(p, t, n, pos))
    ensures DecodeBlock(p, t, n, data, pos) == DecodeList(LoopReader(p), Looped(t), n, 0, data, pos)
  {
    hide DecodeBlock, DecodeList, IsPlain, AlignOf, FirstAlign, Padding, LoopReader, Looped;
    FirstIsSmaller(p, t);
    if n == 0 {
      NoElements(p, t, data, pos);
    } else {
      BlockReadIsAlignedLoop(p, t, n, data, pos);
      if FirstAlign(p, t) > 0 {
        SliceReadSkips(p, t, n, data, pos);
      }
    }
  }

  lemma NoElements(p: Program, t: Ty, data: Bytes, pos: nat)
    requires pos <= |data|
    ensures DecodeBlock(p, t, 0, data, pos) == DecodeList(LoopReader(p), Looped(t), 0, 0, data, pos)
  {
  }

  // Zeros with a one at an index.
  function OneAt(i: nat, n: nat): (r: Bytes)
    requires i < n
    ensures |r| == n && forall j | 0 <= j < n :: r[j] == if j == i then 1 else 0
  {
    Zeros(n)[i := 1]
  }

  lemma MisplacedReadDiffers(p: Program, t: Ty, n: nat, pos: nat)
    requires IsPlain(p, t) && n > 0 && !BlockFits(p, t, n, pos)
    ensures exists data: Bytes ::
      (pos <= |data| && DecodeBlock(p, t, n, data, pos) != DecodeList(LoopReader(p), Looped(t), n, 0, data, pos))
  {
    hide DecodeBlock, DecodeList, IsPlain, SliceFromMemory, AlignOf, FirstAlign;
    hide SizeOfSlice, Padding, LittleValue, LoopReader, Looped;
    var q, first := pos + Padding(pos, AlignOf(p, t)), FirstAlign(p, t);
    var end := q + SizeOfSlice(p, t, n);
    FirstIsSmaller(p, t);
    var zeros := Zeros(end);
    BlockReadsMemory(p, t, n, zeros, pos);
    if first == 0 {
      SliceReadsNothing(p, t, n, zeros, pos);
      assert DecodeBlock(p, t, n, zeros, pos) != DecodeList(LoopReader(p), Looped(t), n, 0, zeros, pos);
    } else {
      PaddingGrows(pos, first, AlignOf(p, t));
      var early := pos + Padding(pos, first);
      var other := OneAt(early, end);
      BlockReadsMemory(p, t, n, other, pos);
      assert zeros[q..end] == other[q..end];
      var a := DecodeList(LoopReader(p), Looped(t), n, 0, zeros, pos);
      var b := DecodeList(LoopReader(p), Looped(t), n, 0, other, pos);
      OneIsNotZero(early, first, end);
      if a.Ok? && b.Ok? {
        SliceReadsFirstNumber(p, t, n, zeros, pos);
        SliceReadsFirstNumber(p, t, n, other, pos);
      }
    }
  }

  lemma BlockReadsMemory(p: Program, t: Ty, n: nat, data: Bytes, pos: nat)
    requires n > 0 && |data| == pos + Padding(pos, AlignOf(p, t)) + SizeOfSlice(p, t, n)
    ensures var q := pos + Padding(pos, AlignOf(p, t));
      DecodeBlock(p, t, n, data, pos) == Ok(SliceFromMemory(p, t, n, data[q..|data|]), |data|)
  {
    hide SliceFromMemory, AlignOf, SizeOfSlice, Padding;
  }

  lemma OneIsNotZero(i: nat, size: nat, n: nat)
    requires size > 0 && i < n
    ensures i + size <= n ==> LittleValue(Zeros(n)[i..i + size]) != LittleValue(OneAt(i, n)[i..i + size])
  {
    if i + size <= n {
      assert Zeros(n)[i..i + size][1..] == OneAt(i, n)[i..i + size][1..];
    }
  }

  /**
   `read_pod_slice` against the element loop, for n plain values at a position: the same
   values, the same end and the same rejected inputs on every input exactly when nothing is
   read or the block starts where the loop would.
   */
  lemma BulkReadMatchesLoop(p: Program, t: Ty, n: nat, pos: nat)
    requires IsPlain(p, t)
    ensures n == 0 || BlockFits(p, t, n, pos) <==>
      forall data: Bytes | pos <= |data| ::
        DecodeBlock(p, t, n, data, pos) == DecodeList(LoopReader(p), Looped(t), n, 0, data, pos)
  {
    hide IsPlain, BlockFits, DecodeBlock, DecodeList;
    if n == 0 || BlockFits(p, t, n, pos) {
      forall data: Bytes | pos <= |data|
        ensures DecodeBlock(p, t, n, data, pos) == DecodeList(LoopReader(p), Looped(t), n, 0, data, pos)
      {
        FittingReadMatches(p, t, n, data, pos);
      }
    } else {
      MisplacedReadDiffers(p, t, n, pos);
    }
  }

  /**
   A fixed array of no elements: the bulk writer pads and the bulk reader does not, so it is
   read back, with its end, exactly where there is nothing to pad.
   */
  lemma EmptyBlockRoundTrip(p: Program, elem: Ty, pre: Bytes)
    ensures var written := pre + Encode(|pre|, [BlockOf(p, [], elem)]);
      DecodeBlock(p, elem, 0, written, |pre|) == Ok([], |written|) <==> |pre| % AlignOf(p, elem) == 0
  {
    PaddingAligns(|pre|, AlignOf(p, elem));
    OneAtom(|pre|, BlockOf(p, [], elem));
  }

  // The size computation, which adds nothing for it, is right there as well, and only there.
  lemma EmptyBlockSize(p: Program, elem: Ty, pos: nat)
    ensures End(pos, [BlockOf(p, [], elem)]) == pos <==> pos % AlignOf(p, elem) == 0
    ensures AlignOf(p, elem) == 1 ==> pos % AlignOf(p, elem) == 0
  {
    PaddingAligns(pos, AlignOf(p, elem));
    OneAtom(pos, BlockOf(p, [], elem));
  }

  // ----- octets -------------------------------------------------------------------------------------

  // A byte slice as a list of values.
  function OctetList(bytes: Bytes): (r: seq<Val>)
    ensures |r| == |bytes| && forall i | 0 <= i < |bytes| :: r[i] == VPrim(bytes[i])
  {
    seq(|bytes|, i requires 0 <= i < |bytes| => VPrim(bytes[i]))
  }

  lemma OneByte(order: ByteOrder, b: Byte)
    ensures Word(order, b, 1) == Atom(1, [b])
  {
    assert LittleBytes(b, 1) == [b];
  }

  lemma {:induction false} OctetEncoding(w: Wire, bytes: Bytes, pos: nat)
    ensures Encode(pos, FlatList(w, OctetList(bytes), TPrim(U8))) == bytes
  {
    if bytes != [] {
      var head, rest := Atom(1, [bytes[0]]), bytes[1..];
      assert OctetList(bytes)[1..] == OctetList(rest);
      OneByte(w.order, bytes[0]);
      assert FlatList(w, OctetList(bytes), TPrim(U8)) == [head] + FlatList(w, OctetList(rest), TPrim(U8));
      PaddingAligns(pos, 1);
      OctetEncoding(w, rest, pos + 1);
      OneAtom(pos, head);
      EncodeConcat(pos, [head], FlatList(w, OctetList(rest), TPrim(U8)));
    }
  }

  lemma OneByteValue(order: ByteOrder, b: Byte)
    ensures NumberValue(order, [b]) == b
  {
    assert [b][1..] == [];
    assert Reverse([b]) == [b];
  }

  lemma OctetDecodes(c: Codec, data: Bytes, pos: nat)
    requires c.lang.Rust? && pos <= |data|
    ensures Decode(c, TPrim(U8), data, pos) ==
      if pos < |data| then Ok(VPrim(data[pos]), pos + 1) else Err(UnexpectedEof)
  {
    PaddingAligns(pos, 1);
    if pos < |data| {
      OneByteValue(c.wire.order, data[pos]);
      assert data[pos..pos + 1] == [data[pos]];
    }
  }

  lemma FirstOctet(b: Byte, rest: Bytes)
    ensures OctetList([b] + rest) == [VPrim(b)] + OctetList(rest)
  {
  }

  lemma {:induction false} OctetsDecode(c: Codec, n: nat, data: Bytes, pos: nat)
    requires c.lang.Rust? && pos <= |data|
    ensures DecodeList(c, TPrim(U8), n, 0, data, pos)
         == if pos + n <= |data| then Ok(OctetList(data[pos..pos + n]), pos + n) else Err(UnexpectedEof)
  {
    hide Decode, OctetList;
    if n > 0 {
      OctetDecodes(c, data, pos);
      if pos < |data| {
        OctetsDecode(c, n - 1, data, pos + 1);
        if pos + n <= |data| {
          assert data[pos..pos + n] == [data[pos]] + data[pos + 1..pos + n];
          FirstOctet(data[pos], data[pos + 1..pos + n]);
        }
      }
    }
  }
}
