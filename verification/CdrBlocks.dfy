/**
 Programs with blocks against the same programs without. A schema is checked type
 by type for a writer's byte order: where no block starts elsewhere than a loop
 would, or holds numbers the loop would turn round, the two write the same bytes
 at every position.
 */
module CdrBlocks {
  import opened CdrWire
  import opened CdrLayout
  import opened CdrTypes
  import opened CdrBulk
  import opened CdrOrders

  // ----- the check ----------------------------------------------------------------

  // A big-endian loop turns every number round, a block none.
  predicate FitsTheOrder(order: ByteOrder, p: Program, elem: Ty) {
    order.Big? ==> WidestNumber(p, elem) <= 1
  }

  // Copied in bulk or not makes no difference for arrays of n such elements.
  predicate FitsEverywhere(order: ByteOrder, p: Program, elem: Ty, n: nat) {
    && IsBlockElement(p, elem)
    && if n == 0 then AlignOf(p, elem) == 1
       else FirstAlign(p, elem) == AlignOf(p, elem) && FitsTheOrder(order, p, elem)
  }

  // Nor for sequences of such elements: the length prefix ends on a multiple of four.
  predicate FitsBehindLength(order: ByteOrder, p: Program, elem: Ty) {
    && IsBlockElement(p, elem)
    && (FirstAlign(p, elem) == AlignOf(p, elem) || AlignOf(p, elem) <= 4)
    && FitsTheOrder(order, p, elem)
  }

  predicate BlocksFit(order: ByteOrder, p: Program, t: Ty) {
    match t
    case TBulkSeq(elem) => FitsBehindLength(order, p, elem)
    case TBulkArray(n, elem) => FitsEverywhere(order, p, elem, n)
    case TSeq(elem) => BlocksFit(order, p, elem)
    case TArray(_, elem) => BlocksFit(order, p, elem)
    case TTuple(fields) => forall f <- fields :: BlocksFit(order, p, f)
    case TOption(inner) => BlocksFit(order, p, inner)
    case TEnum(variants) => forall f <- variants :: BlocksFit(order, p, f)
    case TMap(key, value) => BlocksFit(order, p, key) && BlocksFit(order, p, value)
    case _ => true
  }

  predicate AllBlocksFit(order: ByteOrder, p: Program) {
    forall name <- p.types :: forall f <- p.types[name] :: BlocksFit(order, p, f)
  }

  // For a big-endian writer only arrays of octets are left.
  lemma BigEndianArraysAreOctets(p: Program, elem: Ty, n: nat)
    requires IsBlockElement(p, elem)
    ensures FitsEverywhere(Big, p, elem, n) <==> AlignOf(p, elem) == 1
  {
    hide IsPlain, AlignOf, FirstAlign, WidestNumber, SizeOf;
    FirstIsSmaller(p, elem);
    WidestIsBetween(p, elem);
  }

  // ----- typing --------------------------------------------------------------------

  // Blocks inside a plain type are fine; what is around them must have been checked.
  predicate IsChecked(order: ByteOrder, p: Program, t: Ty) {
    IsPlain(p, t) || BlocksFit(order, p, t)
  }

  lemma {:induction false} PlainFields(p: Program, ts: seq<Ty>)
    requires ArePlain(p, ts)
    ensures forall i | 0 <= i < |ts| :: IsPlain(p, ts[i])
    decreases ts
  {
    hide IsPlain;
    if ts != [] {
      PlainFields(p, ts[1..]);
      assert forall i | 0 < i < |ts| :: ts[i] == ts[1..][i - 1];
    }
  }

  lemma CheckedFields(order: ByteOrder, p: Program, t: Ty)
    requires AllBlocksFit(order, p) && IsChecked(order, p, t)
    ensures t.TTuple? ==> forall i | 0 <= i < |t.fields| :: IsChecked(order, p, t.fields[i])
    ensures t.TMsg? ==> forall i | 0 <= i < |p.Fields(t.name)| :: IsChecked(order, p, p.Fields(t.name)[i])
  {
    hide IsPacked;
    if t.TTuple? && IsPlain(p, t) {
      PlainFields(p, t.fields);
    }
    if t.TMsg? && t.name in p.types {
      assert forall f <- p.Fields(t.name) :: BlocksFit(order, p, f);
    }
  }

  // Both programs have the same values.
  lemma {:induction false} SameValues(order: ByteOrder, p: Program, v: Val, t: Ty)
    requires AllBlocksFit(order, p) && IsChecked(order, p, t)
    ensures HasType(p, v, t) <==> HasType(LoopedProgram(p), v, Looped(t))
    decreases v, 1
  {
    hide AllBlocksFit, IsPacked, LoopedProgram, AllHaveType, HaveTypes, FirstAlign, AlignOf;
    CheckedFields(order, p, t);
    match v
    case VList(items) =>
      match t {
        case TSeq(elem) => SameLists(order, p, items, elem);
        case TArray(_, elem) => SameLists(order, p, items, elem);
        case TBulkSeq(elem) => SameLists(order, p, items, elem);
        case TBulkArray(_, elem) => SameLists(order, p, items, elem);
        case TMap(key, value) =>
          PairLooped(key, value);
          SameLists(order, p, items, TTuple([key, value]));
        case TTuple(fields) => SameFields(order, p, items, fields);
        case TMsg(name) => SameFields(order, p, items, p.Fields(name));
        case _ =>
      }
    case VSome(x) =>
      if t.TOption? {
        SameValues(order, p, x, t.inner);
      }
    case VEnum(tag, x) =>
      if t.TEnum? && tag < |t.variants| {
        SameValues(order, p, x, t.variants[tag]);
      }
    case _ =>
  }

  lemma {:induction false} SameLists(order: ByteOrder, p: Program, vs: seq<Val>, elem: Ty)
    requires AllBlocksFit(order, p) && IsChecked(order, p, elem)
    ensures AllHaveType(p, vs, elem) <==> AllHaveType(LoopedProgram(p), vs, Looped(elem))
    decreases vs, 0
  {
    hide HasType, IsChecked, AllBlocksFit, LoopedProgram;
    forall i | 0 <= i < |vs| ensures HasType(p, vs[i], elem) <==> HasType(LoopedProgram(p), vs[i], Looped(elem)) {
      SameValues(order, p, vs[i], elem);
    }
  }

  lemma {:induction false} SameFields(order: ByteOrder, p: Program, vs: seq<Val>, ts: seq<Ty>)
    requires AllBlocksFit(order, p) && forall i | 0 <= i < |ts| :: IsChecked(order, p, ts[i])
    ensures HaveTypes(p, vs, ts) <==> HaveTypes(LoopedProgram(p), vs, LoopedAll(ts))
    decreases vs, 0
  {
    hide HasType, IsChecked, AllBlocksFit, LoopedProgram;
    if |vs| == |ts| {
      forall i | 0 <= i < |vs|
        ensures HasType(p, vs[i], ts[i]) <==> HasType(LoopedProgram(p), vs[i], LoopedAll(ts)[i])
      {
        SameValues(order, p, vs[i], ts[i]);
      }
    }
  }

  // ----- bytes -----------------------------------------------------------------------

  lemma SameConcat(pos: nat, a: seq<Atom>, b: seq<Atom>, c: seq<Atom>, d: seq<Atom>)
    requires Encode(pos, a) == Encode(pos, c) && Encode(End(pos, a), b) == Encode(End(pos, a), d)
    ensures Encode(pos, a + b) == Encode(pos, c + d)
  {
    hide Encode, End;
    EncodeConcat(pos, a, b);
    EncodeConcat(pos, c, d);
    assert End(pos, a) == pos + |Encode(pos, a)| == End(pos, c);
  }

  // One value in both forms.
  ghost predicate SameBytes(order: ByteOrder, p: Program, v: Val, t: Ty, pos: nat) {
    Encode(pos, Flat(Wire(order, p), v, t)) == Encode(pos, Flat(LoopWireIn(order, p), v, Looped(t)))
  }

  /**
   In a program whose blocks fit, every value is written to the same bytes with blocks and
   with element loops, at every position.
   */
  lemma {:induction false} BlocksAreLoops(order: ByteOrder, p: Program, v: Val, t: Ty, pos: nat)
    requires AllBlocksFit(order, p) && BlocksFit(order, p, t) && HasType(p, v, t)
    ensures SameBytes(order, p, v, t, pos)
    decreases v, 1
  {
    hide Encode, FlatList, FlatFields, AllBlocksFit, AllHaveType, HaveTypes;
    hide FitsEverywhere, FitsBehindLength, IsBlockElement, LoopedProgram, BlockOf, NumberBytes;
    hide Memory, MemoryOfSlice, SizeOf, AlignOf, IsPlain, Word, End;
    var w, l := Wire(order, p), LoopWireIn(order, p);
    match v
    case VList(items) =>
      match t {
        case TSeq(elem) =>
          var prefix := [LengthWord(w, |items|)];
          ListsAreLoops(order, p, items, elem, End(pos, prefix));
          SameConcat(pos, prefix, FlatList(w, items, elem), prefix, FlatList(l, items, Looped(elem)));
        case TMap(key, value) =>
          var prefix, pair := [LengthWord(w, |items|)], TTuple([key, value]);
          PairLooped(key, value);
          ListsAreLoops(order, p, items, pair, End(pos, prefix));
          SameConcat(pos, prefix, FlatList(w, items, pair), prefix, FlatList(l, items, Looped(pair)));
        case TArray(_, elem) => ListsAreLoops(order, p, items, elem, pos);
        case TBulkSeq(elem) => SequenceIsALoop(order, p, v, elem, pos);
        case TBulkArray(n, elem) => ArrayIsALoop(order, p, v, n, elem, pos);
        case TTuple(fields) => FieldsAreLoops(order, p, items, fields, pos);
        case TMsg(name) =>
          ProgramFields(order, p, name);
          FieldsAreLoops(order, p, items, p.Fields(name), pos);
        case _ =>
      }
    case VSome(x) =>
      var prefix := [LengthWord(w, 1)];
      BlocksAreLoops(order, p, x, t.inner, End(pos, prefix));
      SameConcat(pos, prefix, Flat(w, x, t.inner), prefix, Flat(l, x, Looped(t.inner)));
    case VEnum(tag, x) =>
      var prefix, variant := [LengthWord(w, tag)], t.variants[tag];
      BlocksAreLoops(order, p, x, variant, End(pos, prefix));
      SameConcat(pos, prefix, Flat(w, x, variant), prefix, Flat(l, x, Looped(variant)));
    case _ =>
  }

  lemma ProgramFields(order: ByteOrder, p: Program, name: string)
    requires AllBlocksFit(order, p)
    ensures forall f <- p.Fields(name) :: BlocksFit(order, p, f)
  {
  }

  lemma {:induction false} ListsAreLoops(order: ByteOrder, p: Program, vs: seq<Val>, elem: Ty, pos: nat)
    requires AllBlocksFit(order, p) && BlocksFit(order, p, elem) && AllHaveType(p, vs, elem)
    ensures Encode(pos, FlatList(Wire(order, p), vs, elem))
         == Encode(pos, FlatList(LoopWireIn(order, p), vs, Looped(elem)))
    decreases vs, 0
  {
    hide Encode, End, HasType, Flat, BlocksFit, AllBlocksFit, LoopedProgram;
    if vs != [] {
      var w, l := Wire(order, p), LoopWireIn(order, p);
      var head := Flat(w, vs[0], elem);
      BlocksAreLoops(order, p, vs[0], elem, pos);
      ListsAreLoops(order, p, vs[1..], elem, End(pos, head));
      SameConcat(pos, head, FlatList(w, vs[1..], elem),
                 Flat(l, vs[0], Looped(elem)), FlatList(l, vs[1..], Looped(elem)));
    }
  }

  lemma {:induction false} FieldsAreLoops(order: ByteOrder, p: Program, vs: seq<Val>, ts: seq<Ty>, pos: nat)
    requires AllBlocksFit(order, p) && (forall f <- ts :: BlocksFit(order, p, f)) && HaveTypes(p, vs, ts)
    ensures Encode(pos, FlatFields(Wire(order, p), vs, ts))
         == Encode(pos, FlatFields(LoopWireIn(order, p), vs, LoopedAll(ts)))
    decreases vs, 0
  {
    hide Encode, End, HasType, Flat, BlocksFit, AllBlocksFit, LoopedProgram;
    if vs != [] {
      var w, l := Wire(order, p), LoopWireIn(order, p);
      var head := Flat(w, vs[0], ts[0]);
      BlocksAreLoops(order, p, vs[0], ts[0], pos);
      assert forall f <- ts[1..] :: f in ts;
      FieldsAreLoops(order, p, vs[1..], ts[1..], End(pos, head));
      SameConcat(pos, head, FlatFields(w, vs[1..], ts[1..]),
                 Flat(l, vs[0], Looped(ts[0])), FlatFields(l, vs[1..], LoopedAll(ts[1..])));
    }
  }

  // ----- the check is exact ------------------------------------------------------------

  lemma EmptyBlockFits(p: Program, elem: Ty)
    requires IsPlain(p, elem)
    ensures AlignOf(p, elem) == 1 ==> forall pos: nat :: BlockFits(p, elem, 0, pos)
    ensures AlignOf(p, elem) != 1 ==> !BlockFits(p, elem, 0, 1)
  {
    hide IsPlain, AlignOf, FirstAlign;
    PaddingAligns(1, AlignOf(p, elem));
    assert AlignOf(p, elem) != 1 ==> 1 % AlignOf(p, elem) == 1;
  }

  // An array check is the condition of one block, at every position.
  lemma ArrayCheckAtPositions(order: ByteOrder, p: Program, elem: Ty, n: nat)
    requires IsBlockElement(p, elem)
    ensures FitsEverywhere(order, p, elem, n) <==> forall pos: nat :: BlockMatches(order, p, elem, n, pos)
  {
    hide IsPlain, AlignOf, FirstAlign, SizeOf, WidestNumber, BlockFits;
    FirstIsSmaller(p, elem);
    if n == 0 {
      EmptyBlockFits(p, elem);
      if AlignOf(p, elem) != 1 {
        assert !BlockMatches(order, p, elem, 0, 1);
      } else {
        assert forall pos: nat :: BlockFits(p, elem, 0, pos) ==> BlockMatches(order, p, elem, 0, pos);
      }
    } else {
      FitsEverywhereExactly(p, elem, n);
      if FirstAlign(p, elem) != AlignOf(p, elem) {
        var pos: nat :| !BlockFits(p, elem, n, pos);
        assert !BlockMatches(order, p, elem, n, pos);
      } else if !FitsTheOrder(order, p, elem) {
        assert !BlockMatches(order, p, elem, n, 0);
      } else {
        assert forall pos: nat :: BlockFits(p, elem, n, pos) ==> BlockMatches(order, p, elem, n, pos);
      }
    }
  }

  /**
   A fixed array that is copied in bulk: at every position and for all values the bytes are
   those of the loop exactly when the check passes.
   */
  lemma ArrayCheckIsExact(order: ByteOrder, p: Program, elem: Ty, n: nat)
    requires IsBlockElement(p, elem)
    ensures FitsEverywhere(order, p, elem, n) <==>
      forall pos: nat, v | HasType(p, v, TBulkArray(n, elem)) :: SameBytes(order, p, v, TBulkArray(n, elem), pos)
  {
    hide HasType, IsPlain, FitsEverywhere, BlockMatches, SizeOf, SameBytes;
    var t := TBulkArray(n, elem);
    if FitsEverywhere(order, p, elem, n) {
      forall pos: nat, v | HasType(p, v, t) ensures SameBytes(order, p, v, t, pos) {
        ArrayIsALoop(order, p, v, n, elem, pos);
      }
    } else {
      ArrayCheckAtPositions(order, p, elem, n);
      var pos: nat :| !BlockMatches(order, p, elem, n, pos);
      OtherArrayDiffers(order, p, elem, n, pos);
    }
  }

  lemma ArrayIsALoop(order: ByteOrder, p: Program, v: Val, n: nat, elem: Ty, pos: nat)
    requires FitsEverywhere(order, p, elem, n) && HasType(p, v, TBulkArray(n, elem))
    ensures SameBytes(order, p, v, TBulkArray(n, elem), pos)
  {
    hide AllHaveType, IsPlain, AlignOf, FirstAlign, SizeOf, WidestNumber, BlockOf, Encode, FlatList, BlockMatches;
    ArrayCheckAtPositions(order, p, elem, n);
    MatchingBlock(order, p, elem, v.items, pos);
  }

  lemma OtherArrayDiffers(order: ByteOrder, p: Program, elem: Ty, n: nat, pos: nat)
    requires IsBlockElement(p, elem) && !BlockMatches(order, p, elem, n, pos)
    ensures exists v :: HasType(p, v, TBulkArray(n, elem)) && !SameBytes(order, p, v, TBulkArray(n, elem), pos)
  {
    hide AllHaveType, IsPlain, SizeOf, BlockOf, Encode, FlatList, BlockMatches;
    OtherBlockDiffers(order, p, elem, n, pos);
    var vs :| |vs| == n && AllHaveType(p, vs, elem)
      && Encode(pos, [BlockOf(p, vs, elem)]) != Encode(pos, FlatList(LoopWireIn(order, p), vs, Looped(elem)));
    assert HasType(p, VList(vs), TBulkArray(n, elem));
    assert !SameBytes(order, p, VList(vs), TBulkArray(n, elem), pos);
  }

  lemma PrefixEndsOnFour(w: Wire, n: nat, pos: nat)
    ensures End(pos, [LengthWord(w, n)]) % 4 == 0
    ensures pos % 4 == 0 ==> End(pos, [LengthWord(w, n)]) == pos + 4
  {
    PaddingAligns(pos, 4);
    OneAtom(pos, LengthWord(w, n));
  }

  // A sequence check is the condition of one block, at every multiple of four.
  lemma SequenceFits(order: ByteOrder, p: Program, elem: Ty, n: nat, pos: nat)
    requires FitsBehindLength(order, p, elem) && n > 0 && pos % 4 == 0
    ensures BlockMatches(order, p, elem, n, pos)
  {
    hide IsPlain, AlignOf, FirstAlign, SizeOf, WidestNumber;
    FirstIsSmaller(p, elem);
    if AlignOf(p, elem) <= 4 {
      SmallerBoundary(pos, AlignOf(p, elem), 4);
      SmallerBoundary(pos, FirstAlign(p, elem), 4);
    }
  }

  lemma SequenceMisfits(order: ByteOrder, p: Program, elem: Ty)
    requires IsBlockElement(p, elem) && !FitsBehindLength(order, p, elem)
    ensures !BlockMatches(order, p, elem, 1, 4) || !BlockMatches(order, p, elem, 1, 8)
  {
    hide IsPlain, AlignOf, FirstAlign, SizeOf, WidestNumber;
    FirstIsSmaller(p, elem);
  }

  /**
   A sequence that is copied in bulk: the same with one exception, since behind the length
   only an alignment of eight can still ask for padding.
   */
  lemma SequenceCheckIsExact(order: ByteOrder, p: Program, elem: Ty)
    requires IsBlockElement(p, elem)
    ensures FitsBehindLength(order, p, elem) <==>
      forall pos: nat, v | HasType(p, v, TBulkSeq(elem)) :: SameBytes(order, p, v, TBulkSeq(elem), pos)
  {
    hide HasType, IsPlain, FitsBehindLength, BlockMatches, SizeOf, SameBytes;
    if FitsBehindLength(order, p, elem) {
      forall pos: nat, v | HasType(p, v, TBulkSeq(elem)) ensures SameBytes(order, p, v, TBulkSeq(elem), pos) {
        SequenceIsALoop(order, p, v, elem, pos);
      }
    } else {
      SequenceMisfits(order, p, elem);
      OtherSequenceDiffers(order, p, elem, if BlockMatches(order, p, elem, 1, 4) then 4 else 0);
    }
  }

  lemma SequenceIsALoop(order: ByteOrder, p: Program, v: Val, elem: Ty, pos: nat)
    requires FitsBehindLength(order, p, elem) && HasType(p, v, TBulkSeq(elem))
    ensures SameBytes(order, p, v, TBulkSeq(elem), pos)
  {
    hide AllHaveType, FitsBehindLength, IsPlain, SizeOf, BlockOf, Encode, FlatList, BlockMatches, LoopedProgram, End;
    var w := Wire(order, p);
    var prefix := [LengthWord(w, |v.items|)];
    PrefixEndsOnFour(w, |v.items|, pos);
    SequenceBody(order, p, v.items, elem, End(pos, prefix));
    SameConcat(pos, prefix, if v.items == [] then [] else [BlockOf(p, v.items, elem)],
               prefix, FlatList(LoopWireIn(order, p), v.items, Looped(elem)));
  }

  // The block behind a length prefix, if there is one.
  lemma SequenceBody(order: ByteOrder, p: Program, vs: seq<Val>, elem: Ty, pos: nat)
    requires FitsBehindLength(order, p, elem) && AllHaveType(p, vs, elem) && pos % 4 == 0
    ensures Encode(pos, if vs == [] then [] else [BlockOf(p, vs, elem)])
         == Encode(pos, FlatList(LoopWireIn(order, p), vs, Looped(elem)))
  {
    hide AllHaveType, IsPlain, SizeOf, BlockMatches, BlockOf, Encode;
    if vs != [] {
      SequenceFits(order, p, elem, |vs|, pos);
      MatchingBlock(order, p, elem, vs, pos);
    }
  }

  lemma SamePrefix(a: Bytes, x: Bytes, y: Bytes)
    ensures a + x == a + y <==> x == y
  {
    assert (a + x)[|a|..] == x && (a + y)[|a|..] == y;
  }

  lemma OtherSequenceDiffers(order: ByteOrder, p: Program, elem: Ty, pos: nat)
    requires IsBlockElement(p, elem) && pos % 4 == 0 && !BlockMatches(order, p, elem, 1, pos + 4)
    ensures exists v :: HasType(p, v, TBulkSeq(elem)) && !SameBytes(order, p, v, TBulkSeq(elem), pos)
  {
    hide AllHaveType, IsPlain, SizeOf, BlockOf, Encode, FlatList, BlockMatches, LoopedProgram, End;
    var w, l := Wire(order, p), LoopWireIn(order, p);
    OtherBlockDiffers(order, p, elem, 1, pos + 4);
    var vs :| |vs| == 1 && AllHaveType(p, vs, elem)
      && Encode(pos + 4, [BlockOf(p, vs, elem)]) != Encode(pos + 4, FlatList(l, vs, Looped(elem)));
    var v, prefix, block, list := VList(vs), [LengthWord(w, 1)], [BlockOf(p, vs, elem)], FlatList(l, vs, Looped(elem));
    PrefixEndsOnFour(w, 1, pos);
    EncodeConcat(pos, prefix, block);
    EncodeConcat(pos, prefix, list);
    assert Flat(w, v, TBulkSeq(elem)) == prefix + block && Flat(l, v, TSeq(Looped(elem))) == prefix + list;
    SamePrefix(Encode(pos, prefix), Encode(pos + 4, block), Encode(pos + 4, list));
    assert HasType(p, v, TBulkSeq(elem)) && !SameBytes(order, p, v, TBulkSeq(elem), pos);
  }

  // A block whose check fails is written differently somewhere.
  lemma MisplacedBulkDiffers(order: ByteOrder, p: Program, t: Ty)
    requires (t.TBulkSeq? || t.TBulkArray?) && IsBlockElement(p, t.elem) && !BlocksFit(order, p, t)
    ensures exists pos: nat, v :: HasType(p, v, t) && !SameBytes(order, p, v, t, pos)
  {
    hide IsPlain, SizeOf, FitsEverywhere, FitsBehindLength, SameBytes, HasType;
    if t.TBulkSeq? {
      SequenceCheckIsExact(order, p, t.elem);
    } else {
      ArrayCheckIsExact(order, p, t.elem, t.len);
    }
  }
}
