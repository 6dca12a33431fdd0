/**
 Reading back what was written: the round trip in any context, the locality of
 a read, and the rejection of every truncated encoding.
 */
module CdrRoundTrip {
  import opened CdrWire
  import opened CdrLayout
  import opened CdrTypes

  // ----- round trip ---------------------------------------------------------

  lemma WordRoundTrip(c: Codec, v: nat, n: Boundary, data: Bytes, pos: nat)
    requires v < Power256(n) && Carries(data, pos, [Word(c.wire.order, v, n)])
    ensures DecodeWord(c, data, pos, n) == Ok(v, End(pos, [Word(c.wire.order, v, n)]))
  {
    hide NumberBytes, NumberValue, Power256;
    NumberRoundTrip(c.wire.order, v, n);
  }

  lemma LengthRoundTrip(c: Codec, n: nat, data: Bytes, pos: nat)
    requires n < TWO_TO_THE_32 && Carries(data, pos, [LengthWord(c.wire, n)])
    ensures DecodeWord(c, data, pos, 4) == Ok(n, End(pos, [LengthWord(c.wire, n)]))
  {
    hide NumberBytes, NumberValue, Power256, DecodeWord;
    Power256Of4();
    WordRoundTrip(c, n, 4, data, pos);
  }

  lemma StringRoundTrip(c: Codec, s: Bytes, data: Bytes, pos: nat)
    requires WithinLimits(c.wire.program, c.lang.Rust?, VString(s), TString)
    requires Carries(data, pos, Flat(c.wire, VString(s), TString))
    ensures DecodeString(c, data, pos) == Ok(VString(s), End(pos, Flat(c.wire, VString(s), TString)))
  {
    hide NumberBytes, NumberValue, Power256, IsUtf8, Carries, End, DecodeWord, Word;
    var prefix, body := LengthWord(c.wire, |s| + 1), Atom(1, s + [0]);
    var q := End(pos, [prefix]);
    assert Flat(c.wire, VString(s), TString) == [prefix] + [body];
    CarriesConcat(data, pos, [prefix], [body]);
    EncodeConcat(pos, [prefix], [body]);
    LengthRoundTrip(c, |s| + 1, data, pos);
    RawBytes(data, q, s + [0]);
    assert (s + [0])[..|s|] == s;
  }

  lemma RawBytes(data: Bytes, pos: nat, raw: Bytes)
    requires Carries(data, pos, [Atom(1, raw)])
    ensures End(pos, [Atom(1, raw)]) == pos + |raw| <= |data| && data[pos..pos + |raw|] == raw
  {
    PaddingAligns(pos, 1);
  }

  // ----- memory ---------------------------------------------------------------

  // The memory of a plain value has the size of its type, and the value can be read from it.
  lemma {:induction false} MemoryRoundTrip(p: Program, v: Val, t: Ty)
    requires IsPlain(p, t) && HasType(p, v, t)
    ensures |Memory(p, v, t)| == SizeOf(p, t) && FromMemory(p, t, Memory(p, v, t)) == v
    decreases v, 1
  {
    hide IsPacked;
    match t
    case TPrim(prim) => LittleRoundTrip(v.bits, Width(prim));
    case TArray(_, elem) => SliceRoundTrip(p, v.items, elem);
    case TBulkArray(_, elem) => SliceRoundTrip(p, v.items, elem);
    case TTuple(fields) => FieldMemoryRoundTrip(p, v.items, fields);
    case TMsg(name) => FieldMemoryRoundTrip(p, v.items, p.Fields(name));
  }

  lemma {:induction false} SliceRoundTrip(p: Program, vs: seq<Val>, t: Ty)
    requires IsPlain(p, t) && AllHaveType(p, vs, t)
    ensures |MemoryOfSlice(p, vs, t)| == SizeOfSlice(p, t, |vs|)
    ensures SliceFromMemory(p, t, |vs|, MemoryOfSlice(p, vs, t)) == vs
    decreases vs, 0
  {
    hide HasType, IsPlain, Memory, FromMemory, SizeOf;
    if vs != [] {
      MemoryRoundTrip(p, vs[0], t);
      SliceRoundTrip(p, vs[1..], t);
      var head, tail := Memory(p, vs[0], t), MemoryOfSlice(p, vs[1..], t);
      assert (head + tail)[..|head|] == head && (head + tail)[|head|..] == tail;
    }
  }

  lemma {:induction false} FieldMemoryRoundTrip(p: Program, vs: seq<Val>, ts: seq<Ty>)
    requires ArePlain(p, ts) && HaveTypes(p, vs, ts)
    ensures |MemoryOfFields(p, vs, ts)| == SizeOfAll(p, ts)
    ensures FieldsFromMemory(p, ts, MemoryOfFields(p, vs, ts)) == vs
    decreases vs, 0
  {
    hide HasType, IsPlain, Memory, FromMemory, SizeOf;
    if vs != [] {
      MemoryRoundTrip(p, vs[0], ts[0]);
      FieldMemoryRoundTrip(p, vs[1..], ts[1..]);
      var head, tail := Memory(p, vs[0], ts[0]), MemoryOfFields(p, vs[1..], ts[1..]);
      assert (head + tail)[..|head|] == head && (head + tail)[|head|..] == tail;
    }
  }

  // `read_pod_slice` recovers what `write_pod_slice` wrote.
  lemma BlockRoundTrip(p: Program, vs: seq<Val>, elem: Ty, data: Bytes, pos: nat)
    requires IsPlain(p, elem) && AllHaveType(p, vs, elem) && pos <= |data|
    requires vs != [] || AlignOf(p, elem) == 1
    requires Carries(data, pos, [BlockOf(p, vs, elem)])
    ensures DecodeBlock(p, elem, |vs|, data, pos) == Ok(vs, End(pos, [BlockOf(p, vs, elem)]))
  {
    hide HasType, MemoryOfSlice, SliceFromMemory, AlignOf;
    SliceRoundTrip(p, vs, elem);
    PaddingAligns(pos, 1);
    var m := MemoryOfSlice(p, vs, elem);
    var q := pos + Padding(pos, AlignOf(p, elem));
    assert data[q..q + |m|] == m;
  }

  /**
   A reader without guards recovers every typed value within its limits, from any data that
   carries the value at any position. Padding bytes and everything around the value are free,
   and the reader stops exactly at the end of the encoding.
   */
  lemma {:induction false} RoundTrip(c: Codec, v: Val, t: Ty, data: Bytes, pos: nat)
    requires !c.lang.GuardedGo? && pos <= |data|
    requires HasType(c.wire.program, v, t) && WithinLimits(c.wire.program, c.lang.Rust?, v, t)
    requires Carries(data, pos, Flat(c.wire, v, t))
    ensures Decode(c, t, data, pos) == Ok(v, End(pos, Flat(c.wire, v, t)))
    decreases v, 1
  {
    hide NumberBytes, NumberValue, DecodeList, DecodeFields, DecodeBlock, FlatList, FlatFields, Carries, End, BlockOf;
    match v
    case VPrim(bits) => WordRoundTrip(c, bits, Width(t.prim), data, pos);
    case VString(s) => StringRoundTrip(c, s, data, pos);
    case VList(items) =>
      if t.TSeq? {
        SequenceRoundTrip(c, items, t, t.elem, data, pos);
      } else if t.TMap? {
        SequenceRoundTrip(c, items, t, TTuple([t.key, t.value]), data, pos);
      } else if t.TArray? {
        ListRoundTrip(c, items, t.elem, data, pos);
      } else if t.TBulkArray? {
        BlockRoundTrip(c.wire.program, items, t.elem, data, pos);
      } else if t.TBulkSeq? {
        BulkSequenceRoundTrip(c, items, t.elem, data, pos);
      } else {
        FieldsRoundTrip(c, items, if t.TMsg? then c.wire.program.Fields(t.name) else t.fields, data, pos);
      }
    case VNone => LengthRoundTrip(c, 0, data, pos);
    case VSome(x) =>
      var q := PrefixRoundTrip(c, 1, Flat(c.wire, x, t.inner), data, pos);
      RoundTrip(c, x, t.inner, data, q);
    case VEnum(tag, x) =>
      var q := PrefixRoundTrip(c, tag, Flat(c.wire, x, t.variants[tag]), data, pos);
      RoundTrip(c, x, t.variants[tag], data, q);
  }

  lemma SequenceRoundTrip(c: Codec, items: seq<Val>, t: Ty, elem: Ty, data: Bytes, pos: nat)
    requires !c.lang.GuardedGo? && pos <= |data|
    requires t == TSeq(elem) || (t.TMap? && elem == TTuple([t.key, t.value]))
    requires HasType(c.wire.program, VList(items), t) && WithinLimits(c.wire.program, c.lang.Rust?, VList(items), t)
    requires Carries(data, pos, Flat(c.wire, VList(items), t))
    ensures Decode(c, t, data, pos) == Ok(VList(items), End(pos, Flat(c.wire, VList(items), t)))
    decreases VList(items), 0
  {
    hide NumberBytes, NumberValue, DecodeList, DecodeFields, FlatList, Carries, End;
    var q := PrefixRoundTrip(c, |items|, FlatList(c.wire, items, elem), data, pos);
    ListRoundTrip(c, items, elem, data, q);
  }

  lemma BulkSequenceRoundTrip(c: Codec, items: seq<Val>, elem: Ty, data: Bytes, pos: nat)
    requires !c.lang.GuardedGo? && pos <= |data|
    requires HasType(c.wire.program, VList(items), TBulkSeq(elem))
    requires WithinLimits(c.wire.program, c.lang.Rust?, VList(items), TBulkSeq(elem))
    requires Carries(data, pos, Flat(c.wire, VList(items), TBulkSeq(elem)))
    ensures Decode(c, TBulkSeq(elem), data, pos) ==
      Ok(VList(items), End(pos, Flat(c.wire, VList(items), TBulkSeq(elem))))
  {
    hide NumberBytes, NumberValue, DecodeBlock, IsBlockElement, Carries, End, BlockOf;
    var q := PrefixRoundTrip(c, |items|, if items == [] then [] else [BlockOf(c.wire.program, items, elem)], data, pos);
    ReadBulkSequence(c.wire.program, items, elem, data, q);
  }

  // The block behind a length prefix, if there is one.
  lemma ReadBulkSequence(p: Program, items: seq<Val>, elem: Ty, data: Bytes, pos: nat)
    requires IsBlockElement(p, elem) && AllHaveType(p, items, elem) && pos <= |data|
    requires Carries(data, pos, if items == [] then [] else [BlockOf(p, items, elem)])
    ensures DecodeBlock(p, elem, |items|, data, pos)
         == Ok(items, End(pos, if items == [] then [] else [BlockOf(p, items, elem)]))
  {
    hide Carries, BlockOf, AllHaveType;
    if items != [] {
      BlockRoundTrip(p, items, elem, data, pos);
    }
  }

  // A 32-bit prefix in front of any atoms: what it reads as and where the rest starts.
  lemma PrefixRoundTrip(c: Codec, n: nat, rest: seq<Atom>, data: Bytes, pos: nat) returns (q: nat)
    requires n < TWO_TO_THE_32 && pos <= |data|
    requires Carries(data, pos, [LengthWord(c.wire, n)] + rest)
    ensures DecodeWord(c, data, pos, 4) == Ok(n, q)
    ensures q <= |data| && Carries(data, q, rest)
    ensures End(pos, [LengthWord(c.wire, n)] + rest) == End(q, rest)
  {
    var prefix := [LengthWord(c.wire, n)];
    q := End(pos, prefix);
    CarriesConcat(data, pos, prefix, rest);
    EncodeConcat(pos, prefix, rest);
    LengthRoundTrip(c, n, data, pos);
  }

  lemma {:induction false} ListRoundTrip(c: Codec, vs: seq<Val>, elem: Ty, data: Bytes, pos: nat)
    requires !c.lang.GuardedGo? && pos <= |data|
    requires AllHaveType(c.wire.program, vs, elem) && ListWithinLimits(c.wire.program, c.lang.Rust?, vs, elem)
    requires Carries(data, pos, FlatList(c.wire, vs, elem))
    ensures DecodeList(c, elem, |vs|, 0, data, pos) == Ok(vs, End(pos, FlatList(c.wire, vs, elem)))
    decreases vs
  {
    if vs != [] {
      hide HasType, WithinLimits, Decode, DecodeList, Flat, Carries, End;
      var q := SplitCarries(data, pos, Flat(c.wire, vs[0], elem), FlatList(c.wire, vs[1..], elem));
      HeadAndTail(c, vs, elem);
      RoundTrip(c, vs[0], elem, data, pos);
      ListRoundTrip(c, vs[1..], elem, data, q);
      ListStep(c, vs, elem, data, pos, q);
    }
  }

  lemma HeadAndTail(c: Codec, vs: seq<Val>, elem: Ty)
    requires vs != [] && AllHaveType(c.wire.program, vs, elem)
    requires ListWithinLimits(c.wire.program, c.lang.Rust?, vs, elem)
    ensures HasType(c.wire.program, vs[0], elem) && WithinLimits(c.wire.program, c.lang.Rust?, vs[0], elem)
    ensures AllHaveType(c.wire.program, vs[1..], elem) && ListWithinLimits(c.wire.program, c.lang.Rust?, vs[1..], elem)
  {
    hide HasType, WithinLimits;
  }

  lemma ListStep(c: Codec, vs: seq<Val>, elem: Ty, data: Bytes, pos: nat, q: nat)
    requires vs != [] && pos <= q <= |data|
    requires Decode(c, elem, data, pos) == Ok(vs[0], q)
    requires DecodeList(c, elem, |vs[1..]|, 0, data, q).Ok?
    requires DecodeList(c, elem, |vs[1..]|, 0, data, q).value == vs[1..]
    ensures DecodeList(c, elem, |vs|, 0, data, pos) == DecodeList(c, elem, |vs[1..]|, 0, data, q).(value := vs)
  {
    hide Decode;
    assert vs == [vs[0]] + vs[1..];
  }

  lemma {:induction false} FieldsRoundTrip(c: Codec, vs: seq<Val>, ts: seq<Ty>, data: Bytes, pos: nat)
    requires !c.lang.GuardedGo? && pos <= |data|
    requires HaveTypes(c.wire.program, vs, ts) && FieldsWithinLimits(c.wire.program, c.lang.Rust?, vs, ts)
    requires Carries(data, pos, FlatFields(c.wire, vs, ts))
    ensures DecodeFields(c, ts, data, pos) == Ok(vs, End(pos, FlatFields(c.wire, vs, ts)))
    decreases vs
  {
    hide HasType, WithinLimits, Decode, Flat, Carries;
    if vs != [] {
      var q := SplitCarries(data, pos, Flat(c.wire, vs[0], ts[0]), FlatFields(c.wire, vs[1..], ts[1..]));
      HeadAndRest(c, vs, ts);
      RoundTrip(c, vs[0], ts[0], data, pos);
      assert vs == [vs[0]] + vs[1..];
      FieldsRoundTrip(c, vs[1..], ts[1..], data, q);
    }
  }

  lemma HeadAndRest(c: Codec, vs: seq<Val>, ts: seq<Ty>)
    requires vs != [] && HaveTypes(c.wire.program, vs, ts)
    requires FieldsWithinLimits(c.wire.program, c.lang.Rust?, vs, ts)
    ensures HasType(c.wire.program, vs[0], ts[0]) && HaveTypes(c.wire.program, vs[1..], ts[1..])
    ensures WithinLimits(c.wire.program, c.lang.Rust?, vs[0], ts[0])
    ensures FieldsWithinLimits(c.wire.program, c.lang.Rust?, vs[1..], ts[1..])
  {
    hide HasType, WithinLimits;
  }

  lemma SplitCarries(data: Bytes, pos: nat, a: seq<Atom>, b: seq<Atom>) returns (q: nat)
    requires pos <= |data| && Carries(data, pos, a + b)
    ensures q == End(pos, a) <= |data| && Carries(data, pos, a) && Carries(data, q, b)
    ensures End(pos, a + b) == End(q, b)
  {
    q := End(pos, a);
    CarriesConcat(data, pos, a, b);
    EncodeConcat(pos, a, b);
    CarriesEnd(data, pos, a);
  }

  // The round trip for the bytes the writers append, between any bytes before and after.
  lemma WrittenRoundTrip(c: Codec, v: Val, t: Ty, pre: Bytes, post: Bytes)
    requires !c.lang.GuardedGo?
    requires HasType(c.wire.program, v, t) && WithinLimits(c.wire.program, c.lang.Rust?, v, t)
    ensures var written := Encode(|pre|, Flat(c.wire, v, t));
            Decode(c, t, pre + written + post, |pre|) == Ok(v, |pre + written|)
  {
    var data := pre + Encode(|pre|, Flat(c.wire, v, t)) + post;
    EncodeCarries(data, |pre|, Flat(c.wire, v, t));
    RoundTrip(c, v, t, data, |pre|);
  }

  // ----- locality and truncation --------------------------------------------

  /**
   A read that succeeds looks at nothing beyond its end: it gives the same value and the
   same end on every extension of the input. This holds for all three readers.
   */
  lemma {:induction false} DecodeIsLocal(c: Codec, t: Ty, data: Bytes, pos: nat, more: Bytes)
    requires pos <= |data| && Decode(c, t, data, pos).Ok?
    ensures Decode(c, t, data + more, pos) == Decode(c, t, data, pos)
    decreases |data| - pos, c.wire.program.Rank(t), t, 0
  {
    hide NumberValue, DecodeList, DecodeFields, DecodeBlock, LengthGuard, ElementGuard;
    match t
    case TPrim(prim) => WordIsLocal(c, data, pos, Width(prim), more);
    case TString =>
      WordIsLocal(c, data, pos, 4, more);
      var (n, q) := DecodeWord(c, data, pos, 4).Extract();
      if n > 0 {
        assert (data + more)[q..q + n] == data[q..q + n];
      }
    case TSeq(elem) =>
      LengthIsLocal(c, elem, data, pos, more);
      var (n, q) := DecodeLength(c, elem, data, pos).Extract();
      ListIsLocal(c, elem, n, ElementGuard(c, elem), data, q, more);
    case TArray(n, elem) => ListIsLocal(c, elem, n, 0, data, pos, more);
    case TBulkSeq(elem) =>
      LengthIsLocal(c, t, data, pos, more);
      var (n, q) := DecodeLength(c, t, data, pos).Extract();
      BlockIsLocal(c.wire.program, elem, n, data, q, more);
    case TBulkArray(n, elem) => BlockIsLocal(c.wire.program, elem, n, data, pos, more);
    case TTuple(fields) => FieldsAreLocal(c, fields, data, pos, more);
    case TMsg(name) => FieldsAreLocal(c, c.wire.program.Fields(name), data, pos, more);
    case TOption(inner) =>
      WordIsLocal(c, data, pos, 4, more);
      var (tag, q) := DecodeWord(c, data, pos, 4).Extract();
      if tag == 1 {
        DecodeIsLocal(c, inner, data, q, more);
      }
    case TEnum(variants) =>
      WordIsLocal(c, data, pos, 4, more);
      var (tag, q) := DecodeWord(c, data, pos, 4).Extract();
      DecodeIsLocal(c, variants[tag], data, q, more);
    case TMap(key, value) =>
      LengthIsLocal(c, t, data, pos, more);
      var (n, q) := DecodeLength(c, t, data, pos).Extract();
      ListIsLocal(c, TTuple([key, value]), n, 0, data, q, more);
  }

  lemma WordIsLocal(c: Codec, data: Bytes, pos: nat, n: Boundary, more: Bytes)
    requires DecodeWord(c, data, pos, n).Ok?
    ensures DecodeWord(c, data + more, pos, n) == DecodeWord(c, data, pos, n)
  {
    hide NumberValue, Padding;
    SliceOfPrefix(data, more, pos + Padding(pos, n), n);
  }

  lemma BlockIsLocal(p: Program, elem: Ty, n: nat, data: Bytes, pos: nat, more: Bytes)
    requires pos <= |data| && DecodeBlock(p, elem, n, data, pos).Ok?
    ensures DecodeBlock(p, elem, n, data + more, pos) == DecodeBlock(p, elem, n, data, pos)
  {
    hide SliceFromMemory, SizeOfSlice, AlignOf, Padding;
    var q, size := pos + Padding(pos, AlignOf(p, elem)), SizeOfSlice(p, elem, n);
    if n > 0 {
      SliceOfPrefix(data, more, q, size);
    }
  }

  lemma SliceOfPrefix(data: Bytes, more: Bytes, p: nat, n: nat)
    requires p + n <= |data|
    ensures (data + more)[p..p + n] == data[p..p + n]
  {
  }

  lemma LengthIsLocal(c: Codec, elem: Ty, data: Bytes, pos: nat, more: Bytes)
    requires DecodeLength(c, elem, data, pos).Ok?
    ensures DecodeLength(c, elem, data + more, pos) == DecodeLength(c, elem, data, pos)
  {
    WordIsLocal(c, data, pos, 4, more);
    var min := LengthGuard(c, elem);
    var (n, q) := DecodeWord(c, data, pos, 4).Extract();
    if min > 0 {
      DivisionIsMonotone(|data| - q, |data + more| - q, min);
    }
  }

  lemma DivisionIsMonotone(a: nat, b: nat, d: nat)
    requires a <= b && d > 0
    ensures a / d <= b / d
  {
    var x, y := a / d, b / d;
    assert x > y ==> x * d >= (y + 1) * d;
  }

  lemma {:induction false} ListIsLocal(c: Codec, elem: Ty, n: nat, need: nat, data: Bytes, pos: nat, more: Bytes)
    requires pos <= |data| && DecodeList(c, elem, n, need, data, pos).Ok?
    ensures DecodeList(c, elem, n, need, data + more, pos) == DecodeList(c, elem, n, need, data, pos)
    decreases |data| - pos, c.wire.program.Rank(elem), elem, n + 1
  {
    if n > 0 {
      DecodeIsLocal(c, elem, data, pos, more);
      ListIsLocal(c, elem, n - 1, need, data, Decode(c, elem, data, pos).pos, more);
    }
  }

  lemma {:induction false} FieldsAreLocal(c: Codec, ts: seq<Ty>, data: Bytes, pos: nat, more: Bytes)
    requires pos <= |data| && DecodeFields(c, ts, data, pos).Ok?
    ensures DecodeFields(c, ts, data + more, pos) == DecodeFields(c, ts, data, pos)
    decreases |data| - pos, c.wire.program.RankAll(ts), ts, 0
  {
    if ts != [] {
      DecodeIsLocal(c, ts[0], data, pos, more);
      FieldsAreLocal(c, ts[1..], data, Decode(c, ts[0], data, pos).pos, more);
    }
  }

  // Every strict prefix of a written value is rejected.
  lemma TruncationIsRejected(c: Codec, v: Val, t: Ty, pre: Bytes, cut: nat)
    requires !c.lang.GuardedGo?
    requires HasType(c.wire.program, v, t) && WithinLimits(c.wire.program, c.lang.Rust?, v, t)
    requires |pre| <= cut < |pre| + |Encode(|pre|, Flat(c.wire, v, t))|
    ensures Decode(c, t, (pre + Encode(|pre|, Flat(c.wire, v, t)))[..cut], |pre|).Err?
  {
    hide HasType, WithinLimits, Decode, Flat, Encode;
    var whole := pre + Encode(|pre|, Flat(c.wire, v, t));
    WrittenRoundTrip(c, v, t, pre, []);
    assert whole + [] == whole;
    var short, tail := whole[..cut], whole[cut..];
    assert short + tail == whole;
    if Decode(c, t, short, |pre|).Ok? {
      DecodeIsLocal(c, t, short, |pre|, tail);
    }
  }

  // Two values with the same bytes at the same position are the same value.
  lemma EncodingIsInjective(c: Codec, t: Ty, v: Val, w: Val, pos: nat)
    requires !c.lang.GuardedGo?
    requires HasType(c.wire.program, v, t) && WithinLimits(c.wire.program, c.lang.Rust?, v, t)
    requires HasType(c.wire.program, w, t) && WithinLimits(c.wire.program, c.lang.Rust?, w, t)
    requires Encode(pos, Flat(c.wire, v, t)) <= Encode(pos, Flat(c.wire, w, t))
    ensures v == w
  {
    hide HasType, WithinLimits, Decode, Flat, Encode;
    var a, b := Encode(pos, Flat(c.wire, v, t)), Encode(pos, Flat(c.wire, w, t));
    assert b == a + b[|a|..];
    var pre := Zeros(pos);
    assert pre + a + b[|a|..] == pre + b + [] by {
      assert pre + a + b[|a|..] == pre + (a + b[|a|..]);
    }
    WrittenRoundTrip(c, v, t, pre, b[|a|..]);
    WrittenRoundTrip(c, w, t, pre, []);
  }
}
