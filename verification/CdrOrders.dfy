/**
 Byte orders. A block is memory in the order of the host, and a big-endian writer
 that loops turns every number round. The two agree where all numbers are octets.
 */
module CdrOrders {
  import opened CdrWire
  import opened CdrLayout
  import opened CdrTypes
  import opened CdrBulk

  // The writer that loops over elements, in either order.
  function LoopWireIn(order: ByteOrder, p: Program): Wire {
    Wire(order, LoopedProgram(p))
  }

  // ----- the shape of an encoding ------------------------------------------------------

  // The same boundaries and lengths, whatever the bytes.
  predicate SameShape(a: seq<Atom>, b: seq<Atom>) {
    |a| == |b| && forall i | 0 <= i < |a| :: a[i].align == b[i].align && |a[i].bytes| == |b[i].bytes|
  }

  // What is written has the same shape in both orders.
  lemma {:induction false} OrderKeepsShape(p: Program, v: Val, t: Ty)
    ensures SameShape(Flat(Wire(Little, p), v, t), Flat(Wire(Big, p), v, t))
    decreases v, 1
  {
    hide FlatList, FlatFields, NumberBytes, BlockOf;
    match v
    case VList(items) =>
      match t {
        case TSeq(elem) => OrderKeepsListShape(p, items, elem);
        case TMap(key, value) => OrderKeepsListShape(p, items, TTuple([key, value]));
        case TArray(_, elem) => OrderKeepsListShape(p, items, elem);
        case TTuple(fields) => OrderKeepsFieldShape(p, items, fields);
        case TMsg(name) => OrderKeepsFieldShape(p, items, p.Fields(name));
        case _ =>
      }
    case VSome(x) =>
      if t.TOption? {
        OrderKeepsShape(p, x, t.inner);
      }
    case VEnum(tag, x) =>
      if t.TEnum? && tag < |t.variants| {
        OrderKeepsShape(p, x, t.variants[tag]);
      }
    case _ =>
  }

  lemma {:induction false} OrderKeepsListShape(p: Program, vs: seq<Val>, elem: Ty)
    ensures SameShape(FlatList(Wire(Little, p), vs, elem), FlatList(Wire(Big, p), vs, elem))
    decreases vs, 0
  {
    hide Flat;
    if vs != [] {
      OrderKeepsShape(p, vs[0], elem);
      OrderKeepsListShape(p, vs[1..], elem);
    }
  }

  lemma {:induction false} OrderKeepsFieldShape(p: Program, vs: seq<Val>, ts: seq<Ty>)
    ensures SameShape(FlatFields(Wire(Little, p), vs, ts), FlatFields(Wire(Big, p), vs, ts))
    decreases vs, 0
  {
    hide Flat;
    if vs != [] && ts != [] {
      OrderKeepsShape(p, vs[0], ts[0]);
      OrderKeepsFieldShape(p, vs[1..], ts[1..]);
    }
  }

  // Atoms of one shape with the same bytes at a position are the same atoms.
  lemma {:induction false} ShapeDeterminesAtoms(pos: nat, a: seq<Atom>, b: seq<Atom>)
    requires SameShape(a, b) && Encode(pos, a) == Encode(pos, b)
    ensures a == b
    decreases a
  {
    hide Encode, Padding, Zeros;
    if a != [] {
      var x, y := a[0], b[0];
      var pad, q := Zeros(Padding(pos, x.align)), Start(pos, x) + |x.bytes|;
      EncodeFirst(pos, a);
      EncodeFirst(pos, b);
      SplitBehind(pad, x.bytes, Encode(q, a[1..]), y.bytes, Encode(q, b[1..]));
      ShapeDeterminesAtoms(q, a[1..], b[1..]);
      assert a == [x] + a[1..] && b == [y] + b[1..];
    }
  }

  lemma EncodeFirst(pos: nat, a: seq<Atom>)
    requires a != []
    ensures var q := Start(pos, a[0]) + |a[0].bytes|;
      Encode(pos, a) == Zeros(Padding(pos, a[0].align)) + (a[0].bytes + Encode(q, a[1..]))
  {
  }

  lemma SplitBehind(pad: Bytes, x: Bytes, s: Bytes, y: Bytes, t: Bytes)
    requires |x| == |y| && pad + (x + s) == pad + (y + t)
    ensures x == y && s == t
  {
    assert (pad + (x + s))[|pad|..] == x + s && (pad + (y + t))[|pad|..] == y + t;
    assert (x + s)[..|x|] == x && (x + s)[|x|..] == s && (y + t)[..|y|] == y && (y + t)[|y|..] == t;
  }

  // ----- plain values in both orders --------------------------------------------------------

  lemma {:induction false} WidestIsBetween(p: Program, t: Ty)
    requires IsPlain(p, t)
    ensures FirstAlign(p, t) <= WidestNumber(p, t) <= AlignOf(p, t)
    decreases p.Rank(t), t, 0
  {
    hide IsPlain, ArePlain;
    PlainParts(p, t);
    match t
    case TPrim(_) =>
    case TArray(_, elem) => WidestIsBetween(p, elem);
    case TBulkArray(_, elem) => WidestIsBetween(p, elem);
    case TTuple(fields) => WidestOfAllIsBetween(p, fields);
    case TMsg(name) => WidestOfAllIsBetween(p, p.Fields(name));
  }

  lemma {:induction false} WidestOfAllIsBetween(p: Program, ts: seq<Ty>)
    requires ArePlain(p, ts)
    ensures FirstAlignOfAll(p, ts) <= WidestNumberOfAll(p, ts) <= LargestAlign(p, ts)
    decreases p.RankAll(ts), ts, 0
  {
    hide IsPlain, FirstAlign, WidestNumber, AlignOf;
    if ts != [] {
      WidestIsBetween(p, ts[0]);
      WidestOfAllIsBetween(p, ts[1..]);
    }
  }

  // A value of octets is written alike in both orders.
  lemma {:induction false} OctetsIgnoreTheOrder(p: Program, v: Val, t: Ty)
    requires IsPlain(p, t) && HasType(p, v, t) && WidestNumber(p, t) <= 1
    ensures Flat(LoopWireIn(Big, p), v, Looped(t)) == Flat(LoopWire(p), v, Looped(t))
    decreases v, 1
  {
    hide FlatList, FlatFields, LoopedProgram, IsPlain, ArePlain, IsPacked, AllHaveType, HaveTypes;
    PlainParts(p, t);
    match t
    case TPrim(prim) => OneByteNumber(v.bits);
    case TArray(n, elem) => OctetListIgnoresTheOrder(p, v.items, elem);
    case TBulkArray(n, elem) => OctetListIgnoresTheOrder(p, v.items, elem);
    case TTuple(fields) => OctetFieldsIgnoreTheOrder(p, v.items, fields);
    case TMsg(name) => OctetFieldsIgnoreTheOrder(p, v.items, p.Fields(name));
  }

  lemma OneByteNumber(bits: nat)
    ensures NumberBytes(Big, bits, 1) == NumberBytes(Little, bits, 1)
  {
  }

  lemma {:induction false} OctetListIgnoresTheOrder(p: Program, vs: seq<Val>, t: Ty)
    requires IsPlain(p, t) && AllHaveType(p, vs, t) && (vs == [] || WidestNumber(p, t) <= 1)
    ensures FlatList(LoopWireIn(Big, p), vs, Looped(t)) == FlatList(LoopWire(p), vs, Looped(t))
    decreases vs, 0
  {
    hide HasType, IsPlain, Flat, WidestNumber, LoopedProgram;
    if vs != [] {
      OctetsIgnoreTheOrder(p, vs[0], t);
      OctetListIgnoresTheOrder(p, vs[1..], t);
    }
  }

  lemma {:induction false} OctetFieldsIgnoreTheOrder(p: Program, vs: seq<Val>, ts: seq<Ty>)
    requires ArePlain(p, ts) && HaveTypes(p, vs, ts) && WidestNumberOfAll(p, ts) <= 1
    ensures FlatFields(LoopWireIn(Big, p), vs, LoopedAll(ts)) == FlatFields(LoopWire(p), vs, LoopedAll(ts))
    decreases vs, 0
  {
    hide HasType, IsPlain, Flat, WidestNumber, LoopedProgram;
    if vs != [] {
      OctetsIgnoreTheOrder(p, vs[0], ts[0]);
      OctetFieldsIgnoreTheOrder(p, vs[1..], ts[1..]);
    }
  }

  // The sample of bytes that are all one looks the same in both orders.
  lemma {:induction false} FullSampleIgnoresTheOrder(p: Program, t: Ty)
    requires IsPlain(p, t)
    ensures Flat(LoopWireIn(Big, p), Sample(p, t, true), Looped(t)) == Flat(LoopWire(p), Sample(p, t, true), Looped(t))
    decreases p.Rank(t), t, 0
  {
    hide FlatList, FlatFields, LoopedProgram, IsPlain, ArePlain, IsPacked;
    PlainParts(p, t);
    match t
    case TPrim(prim) => RepunitBytes(Width(prim));
    case TArray(n, elem) => FullSliceIgnoresTheOrder(p, elem, n);
    case TBulkArray(n, elem) => FullSliceIgnoresTheOrder(p, elem, n);
    case TTuple(fields) => FullFieldsIgnoreTheOrder(p, fields);
    case TMsg(name) => FullFieldsIgnoreTheOrder(p, p.Fields(name));
  }

  lemma {:induction false} FullSliceIgnoresTheOrder(p: Program, t: Ty, n: nat)
    requires IsPlain(p, t)
    ensures var vs := SampleSlice(p, t, n, true);
      FlatList(LoopWireIn(Big, p), vs, Looped(t)) == FlatList(LoopWire(p), vs, Looped(t))
    decreases p.Rank(t), t, n + 1
  {
    hide IsPlain, Flat, LoopedProgram, Sample;
    if n > 0 {
      FullSampleIgnoresTheOrder(p, t);
      FullSliceIgnoresTheOrder(p, t, n - 1);
    }
  }

  lemma {:induction false} FullFieldsIgnoreTheOrder(p: Program, ts: seq<Ty>)
    requires ArePlain(p, ts)
    ensures var vs := SampleFields(p, ts, true);
      FlatFields(LoopWireIn(Big, p), vs, LoopedAll(ts)) == FlatFields(LoopWire(p), vs, LoopedAll(ts))
    decreases p.RankAll(ts), ts, 0
  {
    hide IsPlain, Flat, LoopedProgram, Sample;
    if ts != [] {
      FullSampleIgnoresTheOrder(p, ts[0]);
      FullFieldsIgnoreTheOrder(p, ts[1..]);
    }
  }

  // The sample of ones shows the order as soon as a number is wider than an octet.
  lemma {:induction false} WordsShowTheOrder(p: Program, t: Ty)
    requires IsPlain(p, t) && WidestNumber(p, t) > 1
    ensures Flat(LoopWireIn(Big, p), Sample(p, t, false), Looped(t)) !=
      Flat(LoopWire(p), Sample(p, t, false), Looped(t))
    decreases p.Rank(t), t, 0
  {
    hide FlatList, FlatFields, LoopedProgram, IsPlain, ArePlain, IsPacked;
    PlainParts(p, t);
    match t
    case TPrim(prim) => OneInBothOrders(Width(prim));
    case TArray(n, elem) => WordSliceShowsTheOrder(p, elem, n);
    case TBulkArray(n, elem) => WordSliceShowsTheOrder(p, elem, n);
    case TTuple(fields) => WordFieldsShowTheOrder(p, fields);
    case TMsg(name) => WordFieldsShowTheOrder(p, p.Fields(name));
  }

  lemma OneInBothOrders(n: nat)
    requires n > 1
    ensures NumberBytes(Big, 1, n) != NumberBytes(Little, 1, n)
  {
    assert LittleBytes(1, n)[0] == 1;
    assert LittleBytes(1, n)[n - 1] == 0 by { ZeroOnTop(n); }
  }

  lemma {:induction false} ZeroOnTop(n: nat)
    requires n > 1
    ensures LittleBytes(1, n)[n - 1] == 0
  {
    ZerosOnly(n - 1);
  }

  lemma {:induction false} ZerosOnly(n: nat)
    ensures forall i | 0 <= i < n :: LittleBytes(0, n)[i] == 0
  {
    if n > 0 {
      ZerosOnly(n - 1);
    }
  }

  lemma WordSliceShowsTheOrder(p: Program, t: Ty, n: nat)
    requires IsPlain(p, t) && n > 0 && WidestNumber(p, t) > 1
    ensures var vs := SampleSlice(p, t, n, false);
      FlatList(LoopWireIn(Big, p), vs, Looped(t)) != FlatList(LoopWire(p), vs, Looped(t))
    decreases p.Rank(t), t, 1
  {
    hide IsPlain, Flat, LoopedProgram, Sample, WidestNumber;
    WordsShowTheOrder(p, t);
    OrderKeepsShape(LoopedProgram(p), Sample(p, t, false), Looped(t));
    var a := Flat(LoopWireIn(Big, p), Sample(p, t, false), Looped(t));
    var b := Flat(LoopWire(p), Sample(p, t, false), Looped(t));
    var rest := SampleSlice(p, t, n - 1, false);
    HeadsDiffer(a, FlatList(LoopWireIn(Big, p), rest, Looped(t)), b, FlatList(LoopWire(p), rest, Looped(t)));
  }

  lemma HeadsDiffer(a: seq<Atom>, s: seq<Atom>, b: seq<Atom>, t: seq<Atom>)
    requires |a| == |b|
    ensures a + s == b + t <==> a == b && s == t
  {
    assert (a + s)[..|a|] == a && (a + s)[|a|..] == s && (b + t)[..|b|] == b && (b + t)[|b|..] == t;
  }

  lemma {:induction false} WordFieldsShowTheOrder(p: Program, ts: seq<Ty>)
    requires ArePlain(p, ts) && WidestNumberOfAll(p, ts) > 1
    ensures var vs := SampleFields(p, ts, false);
      FlatFields(LoopWireIn(Big, p), vs, LoopedAll(ts)) != FlatFields(LoopWire(p), vs, LoopedAll(ts))
    decreases p.RankAll(ts), ts, 0
  {
    hide IsPlain, Flat, LoopedProgram, Sample, WidestNumber;
    var v, rest := Sample(p, ts[0], false), SampleFields(p, ts[1..], false);
    OrderKeepsShape(LoopedProgram(p), v, Looped(ts[0]));
    HeadsDiffer(Flat(LoopWireIn(Big, p), v, Looped(ts[0])), FlatFields(LoopWireIn(Big, p), rest, LoopedAll(ts[1..])),
                Flat(LoopWire(p), v, Looped(ts[0])), FlatFields(LoopWire(p), rest, LoopedAll(ts[1..])));
    if WidestNumber(p, ts[0]) > 1 {
      WordsShowTheOrder(p, ts[0]);
    } else {
      WordFieldsShowTheOrder(p, ts[1..]);
    }
  }

  // ----- blocks against loops in either order ---------------------------------------------------

  // The block starts where the loop would, and turning its numbers round changes nothing.
  predicate BlockMatches(order: ByteOrder, p: Program, t: Ty, n: nat, pos: nat)
    requires IsPlain(p, t)
  {
    BlockFits(p, t, n, pos) && (order.Big? && n > 0 ==> WidestNumber(p, t) <= 1)
  }

  lemma MatchingBlock(order: ByteOrder, p: Program, t: Ty, vs: seq<Val>, pos: nat)
    requires IsPlain(p, t) && AllHaveType(p, vs, t) && BlockMatches(order, p, t, |vs|, pos)
    ensures Encode(pos, [BlockOf(p, vs, t)]) == Encode(pos, FlatList(LoopWireIn(order, p), vs, Looped(t)))
  {
    hide AllHaveType, IsPlain, BlockFits, BlockOf, FlatList, WidestNumber, Encode;
    FittingBlockMatches(p, t, vs, pos);
    if order.Big? {
      OctetListIgnoresTheOrder(p, vs, t);
    }
  }

  lemma OtherBlockDiffers(order: ByteOrder, p: Program, t: Ty, n: nat, pos: nat)
    requires IsPlain(p, t) && !BlockMatches(order, p, t, n, pos)
    ensures exists vs ::
      (|vs| == n && AllHaveType(p, vs, t)
       && Encode(pos, [BlockOf(p, vs, t)]) != Encode(pos, FlatList(LoopWireIn(order, p), vs, Looped(t))))
  {
    hide HasType, IsPlain, BlockFits, BlockOf, FlatList, WidestNumber, Encode, Sample, SameShape;
    if !BlockFits(p, t, n, pos) {
      MisplacedBlockDiffers(p, t, n, pos);
      FullSliceIgnoresTheOrder(p, t, n);
      var vs := SampleSlice(p, t, n, true);
      assert Encode(pos, [BlockOf(p, vs, t)]) != Encode(pos, FlatList(LoopWireIn(order, p), vs, Looped(t)));
    } else {
      var vs := SampleSlice(p, t, n, false);
      SampleHasType(p, t, false);
      FittingBlockMatches(p, t, vs, pos);
      WordSliceShowsTheOrder(p, t, n);
      OrderKeepsListShape(LoopedProgram(p), vs, Looped(t));
      var little, big := FlatList(LoopWire(p), vs, Looped(t)), FlatList(LoopWireIn(Big, p), vs, Looped(t));
      if Encode(pos, little) == Encode(pos, big) {
        ShapeDeterminesAtoms(pos, little, big);
      }
      assert Encode(pos, [BlockOf(p, vs, t)]) != Encode(pos, FlatList(LoopWireIn(order, p), vs, Looped(t)));
    }
  }

  /**
   `write_pod_slice` against the element loop of a writer of either order, for slices of n
   plain values at a position: the bytes are the same for all values exactly when the block
   starts where the loop would and, for a big-endian writer, every number is an octet.
   */
  lemma BlockMatchesExactly(order: ByteOrder, p: Program, t: Ty, n: nat, pos: nat)
    requires IsPlain(p, t)
    ensures BlockMatches(order, p, t, n, pos) <==>
      forall vs | |vs| == n && AllHaveType(p, vs, t) ::
        Encode(pos, [BlockOf(p, vs, t)]) == Encode(pos, FlatList(LoopWireIn(order, p), vs, Looped(t)))
  {
    hide IsPlain, AllHaveType, BlockMatches, BlockOf, FlatList, Encode;
    if BlockMatches(order, p, t, n, pos) {
      forall vs | |vs| == n && AllHaveType(p, vs, t)
        ensures Encode(pos, [BlockOf(p, vs, t)]) == Encode(pos, FlatList(LoopWireIn(order, p), vs, Looped(t)))
      {
        MatchingBlock(order, p, t, vs, pos);
      }
    } else {
      OtherBlockDiffers(order, p, t, n, pos);
    }
  }

  // A big-endian writer mixes the two orders: one 16-bit one, as a block and in a loop.
  lemma BigEndianBlockDiffers(p: Program)
    ensures var vs, t := [VPrim(1)], TPrim(U16);
      AllHaveType(p, vs, t) && Encode(0, [BlockOf(p, vs, t)]) == [1, 0]
      && Encode(0, FlatList(LoopWireIn(Big, p), vs, Looped(t))) == [0, 1]
  {
    var vs, t := [VPrim(1)], TPrim(U16);
    assert Power256(2) == 65536;
    assert LittleBytes(1, 2) == [1] + LittleBytes(0, 1) == [1, 0];
    assert Reverse([1, 0]) == [0, 1];
    assert vs[1..] == [] && MemoryOfSlice(p, vs, t) == [1, 0];
    OneAtom(0, BlockOf(p, vs, t));
    assert FlatList(LoopWireIn(Big, p), vs, t) == [Atom(2, [0, 1])];
    OneAtom(0, Atom(2, [0, 1]));
  }
}
