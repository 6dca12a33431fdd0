/**
 Exactly what the readers accept. `Spells` lists, apart from any reader, the forms in which
 a value may lie in the data; a reader accepts a value exactly where one of its spellings
 lies, and ends where the spelling ends. What the writers write is one of them, and for the
 Rust reader only strings have others.
 */
module CdrAcceptance {
  import opened CdrWire
  import opened CdrLayout
  import opened CdrTypes
  import opened CdrRoundTrip
  import opened GoGuards

  // ----- spellings ------------------------------------------------------------------

  // One word. Rust refuses a bool over 1 and a char that is no scalar value; Go takes any
  // byte for a bool, and every byte but 0 for true.
  predicate SpellsNumber(c: Codec, prim: Prim, bits: nat, atoms: seq<Atom>) {
    if prim == Bool && !c.lang.Rust? then
      bits <= 1 && exists raw: Byte :: (atoms == [Word(c.wire.order, raw, 1)] && (raw != 0 <==> bits == 1))
    else
      && atoms == [Word(c.wire.order, bits, Width(prim))] && bits < Power256(Width(prim))
      && (prim == Bool ==> bits <= 1) && (prim == Char && c.lang.Rust? ==> IsScalar(bits))
  }

  // The length and the bytes behind it.
  predicate SpellsRaw(c: Codec, raw: Bytes, atoms: seq<Atom>) {
    |raw| < TWO_TO_THE_32 && atoms == [LengthWord(c.wire, |raw|), Atom(1, raw)]
  }

  /**
   The empty string may be a bare length of 0. Otherwise Rust reads a string with its
   terminator, or one that was sent without and does not end in a zero byte, and asks for
   UTF-8; Go takes whatever byte is last for the terminator.
   */
  predicate SpellsString(c: Codec, s: Bytes, atoms: seq<Atom>) {
    || (s == [] && atoms == [LengthWord(c.wire, 0)])
    || (if c.lang.Rust? then
          IsUtf8(s) && (SpellsRaw(c, s + [0], atoms) || (s != [] && s[|s| - 1] != 0 && SpellsRaw(c, s, atoms)))
        else exists last: Byte :: SpellsRaw(c, s + [last], atoms))
  }

  predicate Prefixed(c: Codec, n: nat, atoms: seq<Atom>) {
    n < TWO_TO_THE_32 && atoms != [] && atoms[0] == LengthWord(c.wire, n)
  }

  // A block is the memory of its elements; behind a length of 0 there is none.
  predicate SpellsBlock(c: Codec, items: seq<Val>, elem: Ty, atoms: seq<Atom>) {
    && AllHaveType(c.wire.program, items, elem)
    && atoms == if items == [] then [] else [BlockOf(c.wire.program, items, elem)]
  }

  // An empty fixed block takes no room, with or without a place of its own.
  predicate SpellsFixedBlock(c: Codec, items: seq<Val>, elem: Ty, atoms: seq<Atom>) {
    SpellsBlock(c, items, elem, atoms) || (items == [] && atoms == [Atom(1, [])])
  }

  ghost predicate Spells(c: Codec, v: Val, t: Ty, atoms: seq<Atom>)
    decreases v
  {
    match v
    case VPrim(bits) => t.TPrim? && SpellsNumber(c, t.prim, bits, atoms)
    case VString(s) => t.TString? && SpellsString(c, s, atoms)
    case VList(items) =>
      (match t
       case TSeq(elem) =>
         LengthFits(c.lang.Rust?, |items|) && Prefixed(c, |items|, atoms) && SpellsList(c, items, elem, atoms[1..])
       case TMap(key, value) =>
         && LengthFits(c.lang.Rust?, |items|) && Prefixed(c, |items|, atoms)
         && SpellsList(c, items, TTuple([key, value]), atoms[1..])
       case TArray(n, elem) => |items| == n && SpellsList(c, items, elem, atoms)
       case TBulkSeq(elem) =>
         LengthFits(c.lang.Rust?, |items|) && Prefixed(c, |items|, atoms) && SpellsBlock(c, items, elem, atoms[1..])
       case TBulkArray(n, elem) => |items| == n && SpellsFixedBlock(c, items, elem, atoms)
       case TTuple(fields) => SpellsFields(c, items, fields, atoms)
       case TMsg(name) => SpellsFields(c, items, c.wire.program.Fields(name), atoms)
       case _ => false)
    case VNone => t.TOption? && atoms == [LengthWord(c.wire, 0)]
    case VSome(x) => t.TOption? && Prefixed(c, 1, atoms) && Spells(c, x, t.inner, atoms[1..])
    case VEnum(tag, x) =>
      t.TEnum? && tag < |t.variants| && Prefixed(c, tag, atoms) && Spells(c, x, t.variants[tag], atoms[1..])
  }

  ghost predicate SpellsList(c: Codec, vs: seq<Val>, elem: Ty, atoms: seq<Atom>)
    decreases vs
  {
    if vs == [] then atoms == []
    else exists i | 0 <= i <= |atoms| :: Spells(c, vs[0], elem, atoms[..i]) && SpellsList(c, vs[1..], elem, atoms[i..])
  }

  ghost predicate SpellsFields(c: Codec, vs: seq<Val>, ts: seq<Ty>, atoms: seq<Atom>)
    decreases vs
  {
    if vs == [] || ts == [] then vs == [] && ts == [] && atoms == []
    else
      exists i | 0 <= i <= |atoms| ::
        Spells(c, vs[0], ts[0], atoms[..i]) && SpellsFields(c, vs[1..], ts[1..], atoms[i..])
  }

  // The data holds the atoms at pos, and they end at e.
  predicate Lies(data: Bytes, pos: nat, atoms: seq<Atom>, e: nat) {
    Carries(data, pos, atoms) && End(pos, atoms) == e
  }

  // ----- types with blocks that can be read ------------------------------------------------

  predicate BlocksArePlain(p: Program, t: Ty) {
    match t
    case TSeq(elem) => BlocksArePlain(p, elem)
    case TArray(_, elem) => BlocksArePlain(p, elem)
    case TBulkSeq(elem) => IsBlockElement(p, elem)
    case TBulkArray(_, elem) => IsBlockElement(p, elem)
    case TTuple(fields) => forall f <- fields :: BlocksArePlain(p, f)
    case TOption(inner) => BlocksArePlain(p, inner)
    case TEnum(variants) => forall x <- variants :: BlocksArePlain(p, x)
    case TMap(key, value) => BlocksArePlain(p, key) && BlocksArePlain(p, value)
    case _ => true
  }

  predicate AllBlocksArePlain(p: Program) {
    forall name <- p.types :: forall f <- p.types[name] :: BlocksArePlain(p, f)
  }

  // ----- what is accepted is spelled ----------------------------------------------------------

  lemma WordLies(c: Codec, data: Bytes, pos: nat, n: Boundary)
    requires DecodeWord(c, data, pos, n).Ok?
    ensures var w := DecodeWord(c, data, pos, n);
      Lies(data, pos, [Word(c.wire.order, w.value, n)], w.pos)
  {
    hide Power256, LittleBytes, LittleValue, Reverse;
    var p := pos + Padding(pos, n);
    NumberOfBytes(c.wire.order, data[p..p + n]);
    OneAtomLies(data, pos, Word(c.wire.order, DecodeWord(c, data, pos, n).value, n));
  }

  lemma OneAtomLies(data: Bytes, pos: nat, a: Atom)
    requires var q := Start(pos, a); q + |a.bytes| <= |data| && data[q..q + |a.bytes|] == a.bytes
    ensures Lies(data, pos, [a], Start(pos, a) + |a.bytes|)
  {
    hide Padding;
    var q := Start(pos, a) + |a.bytes|;
    assert [a][1..] == [];
    assert Carries(data, q, []) && End(q, []) == q;
  }

  lemma LowAndRest(low: Byte, rest: nat)
    ensures (low + 256 * rest) % 256 == low && (low + 256 * rest) / 256 == rest
  {
  }

  // The bytes of the value of bytes are those bytes.
  lemma {:induction false} LittleBytesOfValue(s: Bytes)
    ensures LittleBytes(LittleValue(s), |s|) == s
  {
    if s != [] {
      LittleBytesOfValue(s[1..]);
      LowAndRest(s[0], LittleValue(s[1..]));
      assert s == [s[0]] + s[1..];
    }
  }

  lemma ReverseTwice(s: Bytes)
    ensures Reverse(Reverse(s)) == s
  {
  }

  lemma NumberOfBytes(order: ByteOrder, s: Bytes)
    ensures NumberBytes(order, NumberValue(order, s), |s|) == s
  {
    hide LittleBytes, LittleValue, Reverse;
    LittleBytesOfValue(s);
    LittleBytesOfValue(Reverse(s));
    ReverseTwice(s);
  }

  lemma LiesConcat(data: Bytes, pos: nat, a: seq<Atom>, q: nat, b: seq<Atom>, e: nat)
    requires Lies(data, pos, a, q) && Lies(data, q, b, e)
    ensures Lies(data, pos, a + b, e)
  {
    hide Carries, End;
    CarriesConcat(data, pos, a, b);
    EncodeConcat(pos, a, b);
  }

  lemma LengthLies(c: Codec, data: Bytes, pos: nat)
    requires DecodeWord(c, data, pos, 4).Ok?
    ensures var w := DecodeWord(c, data, pos, 4);
      w.value < TWO_TO_THE_32 && Lies(data, pos, [LengthWord(c.wire, w.value)], w.pos)
  {
    hide Lies, DecodeWord, Power256;
    Power256Of4();
    WordLies(c, data, pos, 4);
  }

  lemma RawLies(data: Bytes, pos: nat, n: nat)
    requires pos + n <= |data|
    ensures Lies(data, pos, [Atom(1, data[pos..pos + n])], pos + n)
  {
    PaddingAligns(pos, 1);
    OneAtomLies(data, pos, Atom(1, data[pos..pos + n]));
  }

  lemma AcceptedNumber(c: Codec, prim: Prim, data: Bytes, pos: nat) returns (atoms: seq<Atom>)
    requires DecodePrim(c, prim, data, pos).Ok?
    ensures var r := DecodePrim(c, prim, data, pos);
      Spells(c, r.value, TPrim(prim), atoms) && Lies(data, pos, atoms, r.pos)
  {
    hide DecodeWord, Power256, Lies;
    var w := DecodeWord(c, data, pos, Width(prim));
    WordLies(c, data, pos, Width(prim));
    atoms := [Word(c.wire.order, w.value, Width(prim))];
    OneByte();
  }

  lemma OneByte()
    ensures Power256(1) == 256
  {
  }

  lemma AcceptedString(c: Codec, data: Bytes, pos: nat) returns (atoms: seq<Atom>)
    requires DecodeString(c, data, pos).Ok?
    ensures var r := DecodeString(c, data, pos);
      Spells(c, r.value, TString, atoms) && Lies(data, pos, atoms, r.pos)
  {
    hide DecodeWord, Lies, IsUtf8, LengthWord;
    var w := DecodeWord(c, data, pos, 4);
    LengthLies(c, data, pos);
    var (n, q) := w.Extract();
    if n == 0 {
      atoms := [LengthWord(c.wire, 0)];
    } else {
      var raw := data[q..q + n];
      RawLies(data, q, n);
      var head, body := [LengthWord(c.wire, n)], [Atom(1, raw)];
      LiesConcat(data, pos, head, q, body, q + n);
      atoms := head + body;
      assert SpellsRaw(c, raw, atoms);
      assert raw == raw[..n - 1] + [raw[n - 1]];
      var s := DecodeString(c, data, pos).value.chars;
      assert SpellsString(c, s, atoms);
    }
  }

  lemma ListSpelled(c: Codec, v: Val, vs: seq<Val>, elem: Ty, a: seq<Atom>, b: seq<Atom>)
    requires Spells(c, v, elem, a) && SpellsList(c, vs, elem, b)
    ensures SpellsList(c, [v] + vs, elem, a + b)
  {
    hide Spells;
    var i := |a|;
    assert (a + b)[..i] == a && (a + b)[i..] == b && ([v] + vs)[1..] == vs;
  }

  lemma FieldsSpelled(c: Codec, v: Val, vs: seq<Val>, ts: seq<Ty>, a: seq<Atom>, b: seq<Atom>)
    requires ts != [] && Spells(c, v, ts[0], a) && SpellsFields(c, vs, ts[1..], b)
    ensures SpellsFields(c, [v] + vs, ts, a + b)
  {
    hide Spells;
    var i := |a|;
    assert (a + b)[..i] == a && (a + b)[i..] == b && ([v] + vs)[1..] == vs;
  }

  lemma NothingLies(data: Bytes, pos: nat)
    ensures Lies(data, pos, [], pos)
  {
  }

  // Behind a prefix.
  lemma PrefixedSpelling(c: Codec, n: nat, rest: seq<Atom>, data: Bytes, pos: nat, e: nat) returns (atoms: seq<Atom>)
    requires var w := DecodeWord(c, data, pos, 4);
      w.Ok? && w.value == n && Lies(data, w.pos, rest, e)
    ensures Prefixed(c, n, atoms) && atoms[1..] == rest && Lies(data, pos, atoms, e)
  {
    hide DecodeWord, Lies, LengthWord;
    LengthLies(c, data, pos);
    var head := [LengthWord(c.wire, n)];
    LiesConcat(data, pos, head, DecodeWord(c, data, pos, 4).pos, rest, e);
    atoms := head + rest;
  }

  lemma AcceptedLength(c: Codec, elem: Ty, data: Bytes, pos: nat)
    requires DecodeLength(c, elem, data, pos).Ok? && !c.lang.GuardedGo?
    ensures var l := DecodeLength(c, elem, data, pos);
      DecodeWord(c, data, pos, 4) == l && LengthFits(c.lang.Rust?, l.value)
  {
    hide DecodeWord;
    LengthLies(c, data, pos);
  }

  /**
   Whatever a reader accepts is spelled in the data, from the position it read from to the
   position it stopped at.
   */
  lemma {:induction false} AcceptedIsSpelled(c: Codec, t: Ty, data: Bytes, pos: nat) returns (atoms: seq<Atom>)
    requires !c.lang.GuardedGo? && pos <= |data| && Decode(c, t, data, pos).Ok?
    requires AllBlocksArePlain(c.wire.program) && BlocksArePlain(c.wire.program, t)
    ensures var r := Decode(c, t, data, pos);
      Spells(c, r.value, t, atoms) && Lies(data, pos, atoms, r.pos)
    decreases |data| - pos, c.wire.program.Rank(t), t, 0
  {
    hide DecodeList, DecodeFields, DecodeBlock, DecodeWord, DecodeLength, DecodePrim, DecodeString, Lies, LengthWord;
    hide AllBlocksArePlain, SpellsList, SpellsFields, SpellsBlock, SpellsNumber, SpellsString, IsBlockElement;
    match t
    case TPrim(prim) => atoms := AcceptedNumber(c, prim, data, pos);
    case TString => atoms := AcceptedString(c, data, pos);
    case TSeq(elem) =>
      AcceptedLength(c, elem, data, pos);
      var (n, q) := DecodeLength(c, elem, data, pos).Extract();
      atoms := AcceptedList(c, elem, n, data, q);
      atoms := PrefixedSpelling(c, n, atoms, data, pos, Decode(c, t, data, pos).pos);
    case TArray(n, elem) => atoms := AcceptedList(c, elem, n, data, pos);
    case TBulkSeq(elem) =>
      AcceptedLength(c, t, data, pos);
      var (n, q) := DecodeLength(c, t, data, pos).Extract();
      atoms := AcceptedBlock(c, elem, n, data, q);
      atoms := PrefixedSpelling(c, n, atoms, data, pos, Decode(c, t, data, pos).pos);
    case TBulkArray(n, elem) => atoms := AcceptedBlock(c, elem, n, data, pos);
    case TTuple(fields) => atoms := AcceptedFields(c, fields, data, pos);
    case TMsg(name) =>
      FieldsArePlainBlocks(c.wire.program, name);
      atoms := AcceptedFields(c, c.wire.program.Fields(name), data, pos);
    case TOption(inner) =>
      var (tag, q) := DecodeWord(c, data, pos, 4).Extract();
      if tag == 0 {
        LengthLies(c, data, pos);
        atoms := [LengthWord(c.wire, 0)];
      } else {
        atoms := AcceptedIsSpelled(c, inner, data, q);
        atoms := PrefixedSpelling(c, 1, atoms, data, pos, Decode(c, t, data, pos).pos);
      }
    case TEnum(variants) =>
      var (tag, q) := DecodeWord(c, data, pos, 4).Extract();
      atoms := AcceptedIsSpelled(c, variants[tag], data, q);
      atoms := PrefixedSpelling(c, tag, atoms, data, pos, Decode(c, t, data, pos).pos);
    case TMap(key, value) =>
      AcceptedLength(c, t, data, pos);
      var (n, q) := DecodeLength(c, t, data, pos).Extract();
      PairsArePlainBlocks(c.wire.program, key, value);
      atoms := AcceptedList(c, TTuple([key, value]), n, data, q);
      atoms := PrefixedSpelling(c, n, atoms, data, pos, Decode(c, t, data, pos).pos);
  }

  lemma FieldsArePlainBlocks(p: Program, name: string)
    requires AllBlocksArePlain(p)
    ensures forall f <- p.Fields(name) :: BlocksArePlain(p, f)
  {
    hide BlocksArePlain;
  }

  lemma PairsArePlainBlocks(p: Program, key: Ty, value: Ty)
    requires BlocksArePlain(p, key) && BlocksArePlain(p, value)
    ensures BlocksArePlain(p, TTuple([key, value]))
  {
  }

  lemma {:induction false} AcceptedList(c: Codec, elem: Ty, n: nat, data: Bytes, pos: nat) returns (atoms: seq<Atom>)
    requires !c.lang.GuardedGo? && pos <= |data| && DecodeList(c, elem, n, 0, data, pos).Ok?
    requires AllBlocksArePlain(c.wire.program) && BlocksArePlain(c.wire.program, elem)
    ensures var r := DecodeList(c, elem, n, 0, data, pos);
      SpellsList(c, r.value, elem, atoms) && Lies(data, pos, atoms, r.pos)
    decreases |data| - pos, c.wire.program.Rank(elem), elem, n + 1
  {
    hide Decode, Spells, Lies, BlocksArePlain, AllBlocksArePlain, SpellsList;
    if n == 0 {
      atoms := [];
      NothingLies(data, pos);
      NoList(c, elem);
    } else {
      var head := Decode(c, elem, data, pos);
      var first := AcceptedIsSpelled(c, elem, data, pos);
      var rest := AcceptedList(c, elem, n - 1, data, head.pos);
      var tail := DecodeList(c, elem, n - 1, 0, data, head.pos);
      ListSpelled(c, head.value, tail.value, elem, first, rest);
      LiesConcat(data, pos, first, head.pos, rest, tail.pos);
      atoms := first + rest;
    }
  }

  lemma NoList(c: Codec, elem: Ty)
    ensures SpellsList(c, [], elem, [])
  {
  }

  lemma {:induction false} AcceptedFields(c: Codec, ts: seq<Ty>, data: Bytes, pos: nat) returns (atoms: seq<Atom>)
    requires !c.lang.GuardedGo? && pos <= |data| && DecodeFields(c, ts, data, pos).Ok?
    requires AllBlocksArePlain(c.wire.program) && forall t <- ts :: BlocksArePlain(c.wire.program, t)
    ensures var r := DecodeFields(c, ts, data, pos);
      SpellsFields(c, r.value, ts, atoms) && Lies(data, pos, atoms, r.pos)
    decreases |data| - pos, c.wire.program.RankAll(ts), ts, 0
  {
    hide Decode, Spells, Lies, BlocksArePlain, AllBlocksArePlain, SpellsFields;
    if ts == [] {
      atoms := [];
      NothingLies(data, pos);
      NoFields(c);
    } else {
      var head := Decode(c, ts[0], data, pos);
      var first := AcceptedIsSpelled(c, ts[0], data, pos);
      var rest := AcceptedFields(c, ts[1..], data, head.pos);
      var tail := DecodeFields(c, ts[1..], data, head.pos);
      FieldsSpelled(c, head.value, tail.value, ts, first, rest);
      LiesConcat(data, pos, first, head.pos, rest, tail.pos);
      atoms := first + rest;
    }
  }

  lemma NoFields(c: Codec)
    ensures SpellsFields(c, [], [], [])
  {
  }

  // ----- memory ---------------------------------------------------------------------------------

  lemma AcceptedBlock(c: Codec, elem: Ty, n: nat, data: Bytes, pos: nat) returns (atoms: seq<Atom>)
    requires pos <= |data| && DecodeBlock(c.wire.program, elem, n, data, pos).Ok?
    requires IsBlockElement(c.wire.program, elem)
    ensures var r := DecodeBlock(c.wire.program, elem, n, data, pos);
      SpellsBlock(c, r.value, elem, atoms) && Lies(data, pos, atoms, r.pos)
  {
    hide AllHaveType, IsPlain, SliceFromMemory, MemoryOfSlice, AlignOf, SizeOfSlice, SizeOf;
    var p := c.wire.program;
    if n == 0 {
      atoms := [];
      NoneHaveType(p, elem);
    } else {
      var q := pos + Padding(pos, AlignOf(p, elem));
      var m := data[q..q + SizeOfSlice(p, elem, n)];
      SliceOfMemory(p, elem, n, m);
      var block := BlockOf(p, SliceFromMemory(p, elem, n, m), elem);
      OneAtomLies(data, pos, block);
      atoms := [block];
    }
  }

  lemma NoneHaveType(p: Program, elem: Ty)
    ensures AllHaveType(p, [], elem)
  {
  }

  // Every memory of a plain type is the memory of a value: there are no forbidden patterns.
  lemma {:induction false} EveryMemoryIsAValue(p: Program, t: Ty, m: Bytes)
    requires IsPlain(p, t) && |m| == SizeOf(p, t)
    ensures HasType(p, FromMemory(p, t, m), t) && Memory(p, FromMemory(p, t, m), t) == m
    decreases p.Rank(t), t, 0
  {
    hide IsPacked, HaveTypes, AllHaveType, SliceFromMemory, FieldsFromMemory, MemoryOfSlice, MemoryOfFields;
    hide Power256, LittleBytes, LittleValue;
    match t
    case TPrim(prim) => LittleBytesOfValue(m);
    case TArray(n, elem) => SliceOfMemory(p, elem, n, m);
    case TBulkArray(n, elem) => SliceOfMemory(p, elem, n, m);
    case TTuple(fields) => FieldsOfMemory(p, fields, m);
    case TMsg(name) => FieldsOfMemory(p, p.Fields(name), m);
  }

  lemma {:induction false} SliceOfMemory(p: Program, t: Ty, n: nat, m: Bytes)
    requires IsPlain(p, t) && |m| == SizeOfSlice(p, t, n)
    ensures AllHaveType(p, SliceFromMemory(p, t, n, m), t)
    ensures MemoryOfSlice(p, SliceFromMemory(p, t, n, m), t) == m
    decreases p.Rank(t), t, n + 1
  {
    hide IsPlain, HasType, FromMemory, Memory, SizeOf;
    if n > 0 {
      var size := SizeOf(p, t);
      EveryMemoryIsAValue(p, t, m[..size]);
      SliceOfMemory(p, t, n - 1, m[size..]);
      assert m == m[..size] + m[size..];
    }
  }

  lemma {:induction false} FieldsOfMemory(p: Program, ts: seq<Ty>, m: Bytes)
    requires ArePlain(p, ts) && |m| == SizeOfAll(p, ts)
    ensures HaveTypes(p, FieldsFromMemory(p, ts, m), ts)
    ensures MemoryOfFields(p, FieldsFromMemory(p, ts, m), ts) == m
    decreases p.RankAll(ts), ts, 0
  {
    hide IsPlain, HasType, FromMemory, Memory, SizeOf;
    if ts != [] {
      var size := SizeOf(p, ts[0]);
      EveryMemoryIsAValue(p, ts[0], m[..size]);
      FieldsOfMemory(p, ts[1..], m[size..]);
      assert m == m[..size] + m[size..];
    }
  }

  // ----- what is spelled is accepted -----------------------------------------------------------

  lemma WordIsRead(c: Codec, v: nat, n: Boundary, data: Bytes, pos: nat, e: nat)
    requires v < Power256(n) && Lies(data, pos, [Word(c.wire.order, v, n)], e)
    ensures DecodeWord(c, data, pos, n) == Ok(v, e)
  {
    hide DecodeWord, Power256, Carries, End, Word;
    WordRoundTrip(c, v, n, data, pos);
  }

  lemma NumberIsRead(c: Codec, prim: Prim, bits: nat, atoms: seq<Atom>, data: Bytes, pos: nat, e: nat)
    requires SpellsNumber(c, prim, bits, atoms) && Lies(data, pos, atoms, e)
    ensures DecodePrim(c, prim, data, pos) == Ok(VPrim(bits), e)
  {
    hide DecodeWord, Lies, Power256, Word;
    OneByte();
    if prim == Bool && !c.lang.Rust? {
      var raw: Byte :| atoms == [Word(c.wire.order, raw, 1)] && (raw != 0 <==> bits == 1);
      WordIsRead(c, raw, 1, data, pos, e);
    } else {
      WordIsRead(c, bits, Width(prim), data, pos, e);
    }
  }

  // A prefix that lies in the data, and where the rest starts.
  lemma PrefixIsRead(c: Codec, n: nat, atoms: seq<Atom>, data: Bytes, pos: nat, e: nat) returns (q: nat)
    requires Prefixed(c, n, atoms) && pos <= |data| && Lies(data, pos, atoms, e)
    ensures atoms != [] && DecodeWord(c, data, pos, 4) == Ok(n, q)
    ensures q <= |data| && Lies(data, q, atoms[1..], e)
  {
    hide DecodeWord, Carries, End, LengthWord;
    assert atoms == [LengthWord(c.wire, n)] + atoms[1..];
    q := PrefixRoundTrip(c, n, atoms[1..], data, pos);
  }

  lemma RawIsRead(c: Codec, raw: Bytes, atoms: seq<Atom>, data: Bytes, pos: nat, e: nat) returns (q: nat)
    requires SpellsRaw(c, raw, atoms) && pos <= |data| && Lies(data, pos, atoms, e)
    ensures DecodeWord(c, data, pos, 4) == Ok(|raw|, q)
    ensures e == q + |raw| <= |data| && data[q..q + |raw|] == raw
  {
    hide DecodeWord, LengthWord;
    q := PrefixIsRead(c, |raw|, atoms, data, pos, e);
    assert atoms[1..] == [Atom(1, raw)];
    RawBytes(data, q, raw);
  }

  lemma StringIsRead(c: Codec, s: Bytes, atoms: seq<Atom>, data: Bytes, pos: nat, e: nat)
    requires SpellsString(c, s, atoms) && pos <= |data| && Lies(data, pos, atoms, e)
    ensures DecodeString(c, data, pos) == Ok(VString(s), e)
  {
    hide DecodeWord, Lies, IsUtf8, LengthWord, SpellsRaw;
    if s == [] && atoms == [LengthWord(c.wire, 0)] {
      var q := PrefixIsRead(c, 0, atoms, data, pos, e);
      NothingIsLeft(data, q, atoms[1..], e);
    } else if !c.lang.Rust? {
      var last: Byte :| SpellsRaw(c, s + [last], atoms);
      var q := RawIsRead(c, s + [last], atoms, data, pos, e);
      assert (s + [last])[..|s|] == s;
    } else if SpellsRaw(c, s + [0], atoms) {
      var q := RawIsRead(c, s + [0], atoms, data, pos, e);
      assert (s + [0])[..|s|] == s;
    } else {
      var q := RawIsRead(c, s, atoms, data, pos, e);
    }
  }

  lemma NothingIsLeft(data: Bytes, pos: nat, atoms: seq<Atom>, e: nat)
    requires atoms == [] && Lies(data, pos, atoms, e)
    ensures e == pos
  {
  }

  lemma BlockIsRead(c: Codec, items: seq<Val>, elem: Ty, atoms: seq<Atom>, data: Bytes, pos: nat, e: nat)
    requires SpellsBlock(c, items, elem, atoms) && pos <= |data| && Lies(data, pos, atoms, e)
    requires IsBlockElement(c.wire.program, elem)
    ensures DecodeBlock(c.wire.program, elem, |items|, data, pos) == Ok(items, e)
  {
    hide AllHaveType, IsPlain, BlockOf, Carries, End, SizeOf;
    if items == [] {
      NothingIsLeft(data, pos, atoms, e);
    } else {
      BlockRoundTrip(c.wire.program, items, elem, data, pos);
    }
  }

  lemma FixedBlockIsRead(c: Codec, items: seq<Val>, elem: Ty, atoms: seq<Atom>, data: Bytes, pos: nat, e: nat)
    requires SpellsFixedBlock(c, items, elem, atoms) && pos <= |data| && Lies(data, pos, atoms, e)
    requires IsBlockElement(c.wire.program, elem)
    ensures DecodeBlock(c.wire.program, elem, |items|, data, pos) == Ok(items, e)
  {
    hide IsBlockElement, SpellsBlock;
    if SpellsBlock(c, items, elem, atoms) {
      BlockIsRead(c, items, elem, atoms, data, pos, e);
    } else {
      RawBytes(data, pos, []);
    }
  }

  // From any data in which a spelling of a value lies the value comes back, with the end.
  lemma {:induction false} SpelledIsAccepted(
    c: Codec, v: Val, t: Ty, atoms: seq<Atom>, data: Bytes, pos: nat, e: nat)
    requires !c.lang.GuardedGo? && pos <= |data|
    requires AllBlocksArePlain(c.wire.program) && BlocksArePlain(c.wire.program, t)
    requires Spells(c, v, t, atoms) && Lies(data, pos, atoms, e)
    ensures Decode(c, t, data, pos) == Ok(v, e)
    decreases v, 1
  {
    hide DecodeList, DecodeFields, DecodeBlock, DecodeWord, DecodePrim, DecodeString, Lies, LengthWord;
    hide AllBlocksArePlain, SpellsList, SpellsFields, SpellsBlock, SpellsNumber, SpellsString, IsBlockElement, Prefixed;
    match v
    case VPrim(bits) => NumberIsRead(c, t.prim, bits, atoms, data, pos, e);
    case VString(s) => StringIsRead(c, s, atoms, data, pos, e);
    case VList(items) =>
      match t {
        case TSeq(elem) =>
          var q := PrefixIsRead(c, |items|, atoms, data, pos, e);
          ListIsRead(c, items, elem, atoms[1..], data, q, e);
          LengthIsRead(c, elem, |items|, data, pos, q);
        case TMap(key, value) =>
          var q := PrefixIsRead(c, |items|, atoms, data, pos, e);
          PairsArePlainBlocks(c.wire.program, key, value);
          ListIsRead(c, items, TTuple([key, value]), atoms[1..], data, q, e);
          LengthIsRead(c, t, |items|, data, pos, q);
        case TArray(n, elem) => ListIsRead(c, items, elem, atoms, data, pos, e);
        case TBulkSeq(elem) =>
          var q := PrefixIsRead(c, |items|, atoms, data, pos, e);
          BlockIsRead(c, items, elem, atoms[1..], data, q, e);
          LengthIsRead(c, t, |items|, data, pos, q);
        case TBulkArray(n, elem) => FixedBlockIsRead(c, items, elem, atoms, data, pos, e);
        case TTuple(fields) => FieldsAreRead(c, items, fields, atoms, data, pos, e);
        case TMsg(name) =>
          FieldsArePlainBlocks(c.wire.program, name);
          FieldsAreRead(c, items, c.wire.program.Fields(name), atoms, data, pos, e);
        case _ =>
      }
    case VNone =>
      ShortPrefix(c, 0, atoms);
      var q := PrefixIsRead(c, 0, atoms, data, pos, e);
      NothingIsLeft(data, q, atoms[1..], e);
    case VSome(x) =>
      var q := PrefixIsRead(c, 1, atoms, data, pos, e);
      SpelledIsAccepted(c, x, t.inner, atoms[1..], data, q, e);
    case VEnum(tag, x) =>
      var q := PrefixIsRead(c, tag, atoms, data, pos, e);
      SpelledIsAccepted(c, x, t.variants[tag], atoms[1..], data, q, e);
  }

  lemma ShortPrefix(c: Codec, n: nat, atoms: seq<Atom>)
    requires n < TWO_TO_THE_32 && atoms == [LengthWord(c.wire, n)]
    ensures Prefixed(c, n, atoms)
  {
  }

  lemma LengthIsRead(c: Codec, elem: Ty, n: nat, data: Bytes, pos: nat, q: nat)
    requires !c.lang.GuardedGo? && DecodeWord(c, data, pos, 4) == Ok(n, q) && LengthFits(c.lang.Rust?, n)
    ensures DecodeLength(c, elem, data, pos) == Ok(n, q)
  {
    hide DecodeWord;
  }

  lemma {:induction false} ListIsRead(
    c: Codec, vs: seq<Val>, elem: Ty, atoms: seq<Atom>, data: Bytes, pos: nat, e: nat)
    requires !c.lang.GuardedGo? && pos <= |data|
    requires AllBlocksArePlain(c.wire.program) && BlocksArePlain(c.wire.program, elem)
    requires SpellsList(c, vs, elem, atoms) && Lies(data, pos, atoms, e)
    ensures DecodeList(c, elem, |vs|, 0, data, pos) == Ok(vs, e)
    decreases vs
  {
    hide Decode, Spells, Lies, BlocksArePlain, AllBlocksArePlain;
    if vs == [] {
      NothingIsLeft(data, pos, atoms, e);
    } else {
      var i :| 0 <= i <= |atoms| && Spells(c, vs[0], elem, atoms[..i]) && SpellsList(c, vs[1..], elem, atoms[i..]);
      var q := SplitLies(data, pos, atoms, i, e);
      SpelledIsAccepted(c, vs[0], elem, atoms[..i], data, pos, q);
      ListIsRead(c, vs[1..], elem, atoms[i..], data, q, e);
      assert vs == [vs[0]] + vs[1..];
    }
  }

  lemma SplitLies(data: Bytes, pos: nat, atoms: seq<Atom>, i: nat, e: nat) returns (q: nat)
    requires pos <= |data| && i <= |atoms| && Lies(data, pos, atoms, e)
    ensures q <= |data| && Lies(data, pos, atoms[..i], q) && Lies(data, q, atoms[i..], e)
  {
    hide Carries, End;
    assert atoms == atoms[..i] + atoms[i..];
    q := SplitCarries(data, pos, atoms[..i], atoms[i..]);
  }

  lemma {:induction false} FieldsAreRead(
    c: Codec, vs: seq<Val>, ts: seq<Ty>, atoms: seq<Atom>, data: Bytes, pos: nat, e: nat)
    requires !c.lang.GuardedGo? && pos <= |data|
    requires AllBlocksArePlain(c.wire.program) && forall t <- ts :: BlocksArePlain(c.wire.program, t)
    requires SpellsFields(c, vs, ts, atoms) && Lies(data, pos, atoms, e)
    ensures DecodeFields(c, ts, data, pos) == Ok(vs, e)
    decreases vs
  {
    hide Decode, Spells, Lies, BlocksArePlain, AllBlocksArePlain;
    if vs == [] {
      NothingIsLeft(data, pos, atoms, e);
    } else {
      var i :| 0 <= i <= |atoms|
        && Spells(c, vs[0], ts[0], atoms[..i]) && SpellsFields(c, vs[1..], ts[1..], atoms[i..]);
      var q := SplitLies(data, pos, atoms, i, e);
      SpelledIsAccepted(c, vs[0], ts[0], atoms[..i], data, pos, q);
      FieldsAreRead(c, vs[1..], ts[1..], atoms[i..], data, q, e);
      assert vs == [vs[0]] + vs[1..];
    }
  }

  // ----- the law ----------------------------------------------------------------------------------

  /**
   A reader, of either language, with guards or without, accepts a value at a position and
   stops at an end exactly when a spelling of the value lies there. Padding bytes and
   everything around it are free.
   */
  lemma AcceptedExactly(c: Codec, v: Val, t: Ty, data: Bytes, pos: nat, e: nat)
    requires pos <= |data| && AllBlocksArePlain(c.wire.program) && BlocksArePlain(c.wire.program, t)
    ensures Decode(c, t, data, pos) == Ok(v, e) <==> exists atoms :: Spells(c, v, t, atoms) && Lies(data, pos, atoms, e)
  {
    hide Decode, Spells, Lies, BlocksArePlain, AllBlocksArePlain;
    var u := Unguarded(c);
    GuardsAreTransparent(c, t, data, pos);
    if Decode(c, t, data, pos) == Ok(v, e) {
      var atoms := AcceptedIsSpelled(u, t, data, pos);
      SameSpellings(c, v, t, atoms);
    }
    forall atoms | Spells(c, v, t, atoms) && Lies(data, pos, atoms, e) ensures Decode(c, t, data, pos) == Ok(v, e) {
      SameSpellings(c, v, t, atoms);
      SpelledIsAccepted(u, v, t, atoms, data, pos, e);
    }
  }

  // Guards are no part of a spelling.
  lemma {:induction false} SameSpellings(c: Codec, v: Val, t: Ty, atoms: seq<Atom>)
    ensures Spells(c, v, t, atoms) <==> Spells(Unguarded(c), v, t, atoms)
    decreases v, 1
  {
    hide SpellsList, SpellsFields;
    var u := Unguarded(c);
    match v
    case VList(items) =>
      match t {
        case TSeq(elem) => if atoms != [] { SameListSpellings(c, items, elem, atoms[1..]); }
        case TMap(key, value) => if atoms != [] { SameListSpellings(c, items, TTuple([key, value]), atoms[1..]); }
        case TArray(_, elem) => SameListSpellings(c, items, elem, atoms);
        case TTuple(fields) => SameFieldSpellings(c, items, fields, atoms);
        case TMsg(name) => SameFieldSpellings(c, items, c.wire.program.Fields(name), atoms);
        case _ =>
      }
    case VSome(x) => if t.TOption? && atoms != [] { SameSpellings(c, x, t.inner, atoms[1..]); }
    case VEnum(tag, x) =>
      if t.TEnum? && tag < |t.variants| && atoms != [] { SameSpellings(c, x, t.variants[tag], atoms[1..]); }
    case _ =>
  }

  lemma {:induction false} SameListSpellings(c: Codec, vs: seq<Val>, elem: Ty, atoms: seq<Atom>)
    ensures SpellsList(c, vs, elem, atoms) <==> SpellsList(Unguarded(c), vs, elem, atoms)
    decreases vs, 0
  {
    hide Spells;
    if vs != [] {
      forall i | 0 <= i <= |atoms|
        ensures Spells(c, vs[0], elem, atoms[..i]) <==> Spells(Unguarded(c), vs[0], elem, atoms[..i])
        ensures SpellsList(c, vs[1..], elem, atoms[i..]) <==> SpellsList(Unguarded(c), vs[1..], elem, atoms[i..])
      {
        SameSpellings(c, vs[0], elem, atoms[..i]);
        SameListSpellings(c, vs[1..], elem, atoms[i..]);
      }
    }
  }

  lemma {:induction false} SameFieldSpellings(c: Codec, vs: seq<Val>, ts: seq<Ty>, atoms: seq<Atom>)
    ensures SpellsFields(c, vs, ts, atoms) <==> SpellsFields(Unguarded(c), vs, ts, atoms)
    decreases vs, 0
  {
    hide Spells;
    if vs != [] && ts != [] {
      forall i | 0 <= i <= |atoms|
        ensures Spells(c, vs[0], ts[0], atoms[..i]) <==> Spells(Unguarded(c), vs[0], ts[0], atoms[..i])
        ensures SpellsFields(c, vs[1..], ts[1..], atoms[i..])
           <==> SpellsFields(Unguarded(c), vs[1..], ts[1..], atoms[i..])
      {
        SameSpellings(c, vs[0], ts[0], atoms[..i]);
        SameFieldSpellings(c, vs[1..], ts[1..], atoms[i..]);
      }
    }
  }

  // ----- what the writers write -------------------------------------------------------------------

  lemma WholePrefix(c: Codec, n: nat, rest: seq<Atom>)
    requires n < TWO_TO_THE_32
    ensures var atoms := [LengthWord(c.wire, n)] + rest; Prefixed(c, n, atoms) && atoms[1..] == rest
  {
  }

  // Within the limits of a reader, what is written for a value is one of its spellings.
  lemma {:induction false} WrittenIsSpelled(c: Codec, v: Val, t: Ty)
    requires HasType(c.wire.program, v, t) && WithinLimits(c.wire.program, c.lang.Rust?, v, t)
    ensures Spells(c, v, t, Flat(c.wire, v, t))
    decreases v, 1
  {
    hide FlatList, FlatFields, SpellsList, SpellsFields, AllHaveType, HaveTypes, ListWithinLimits, FieldsWithinLimits;
    hide LengthWord, Prefixed, IsUtf8, BlockOf, IsBlockElement, NumberBytes, Power256;
    match v
    case VPrim(bits) => OneByte();
    case VString(s) => WrittenString(c, s);
    case VList(items) =>
      match t {
        case TSeq(elem) =>
          WrittenList(c, items, elem);
          WholePrefix(c, |items|, FlatList(c.wire, items, elem));
        case TMap(key, value) =>
          WrittenList(c, items, TTuple([key, value]));
          WholePrefix(c, |items|, FlatList(c.wire, items, TTuple([key, value])));
        case TArray(_, elem) => WrittenList(c, items, elem);
        case TBulkSeq(elem) =>
          WholePrefix(c, |items|, if items == [] then [] else [BlockOf(c.wire.program, items, elem)]);
        case TBulkArray(_, elem) =>
          if items == [] {
            EmptyBlock(c.wire.program, elem);
          }
        case TTuple(fields) => WrittenFields(c, items, fields);
        case TMsg(name) => WrittenFields(c, items, c.wire.program.Fields(name));
      }
    case VNone =>
    case VSome(x) =>
      WrittenIsSpelled(c, x, t.inner);
      WholePrefix(c, 1, Flat(c.wire, x, t.inner));
    case VEnum(tag, x) =>
      WrittenIsSpelled(c, x, t.variants[tag]);
      WholePrefix(c, tag, Flat(c.wire, x, t.variants[tag]));
  }

  lemma WrittenString(c: Codec, s: Bytes)
    requires WithinLimits(c.wire.program, c.lang.Rust?, VString(s), TString)
    ensures SpellsString(c, s, Flat(c.wire, VString(s), TString))
  {
    hide IsUtf8, LengthWord;
    assert SpellsRaw(c, s + [0], Flat(c.wire, VString(s), TString));
  }

  lemma EmptyBlock(p: Program, elem: Ty)
    requires AlignOf(p, elem) == 1
    ensures BlockOf(p, [], elem) == Atom(1, [])
  {
    hide AlignOf;
  }

  lemma {:induction false} WrittenList(c: Codec, vs: seq<Val>, elem: Ty)
    requires AllHaveType(c.wire.program, vs, elem) && ListWithinLimits(c.wire.program, c.lang.Rust?, vs, elem)
    ensures SpellsList(c, vs, elem, FlatList(c.wire, vs, elem))
    decreases vs, 0
  {
    hide HasType, WithinLimits, Spells, Flat, SpellsList;
    if vs == [] {
      NoList(c, elem);
    } else {
      HeadAndTail(c, vs, elem);
      WrittenIsSpelled(c, vs[0], elem);
      WrittenList(c, vs[1..], elem);
      ListSpelled(c, vs[0], vs[1..], elem, Flat(c.wire, vs[0], elem), FlatList(c.wire, vs[1..], elem));
      assert [vs[0]] + vs[1..] == vs;
    }
  }

  lemma {:induction false} WrittenFields(c: Codec, vs: seq<Val>, ts: seq<Ty>)
    requires HaveTypes(c.wire.program, vs, ts) && FieldsWithinLimits(c.wire.program, c.lang.Rust?, vs, ts)
    ensures SpellsFields(c, vs, ts, FlatFields(c.wire, vs, ts))
    decreases vs, 0
  {
    hide HasType, WithinLimits, Spells, Flat, SpellsFields;
    if vs == [] {
      NoFields(c);
    } else {
      HeadAndRest(c, vs, ts);
      WrittenIsSpelled(c, vs[0], ts[0]);
      WrittenFields(c, vs[1..], ts[1..]);
      FieldsSpelled(c, vs[0], vs[1..], ts, Flat(c.wire, vs[0], ts[0]), FlatFields(c.wire, vs[1..], ts[1..]));
      assert [vs[0]] + vs[1..] == vs;
    }
  }

  // ----- only strings vary -----------------------------------------------------------------------------

  // No strings, and no fixed blocks that might be empty.
  predicate HasNoStrings(t: Ty) {
    match t
    case TString => false
    case TSeq(elem) => HasNoStrings(elem)
    case TArray(_, elem) => HasNoStrings(elem)
    case TBulkArray(n, _) => n > 0
    case TTuple(fields) => forall f <- fields :: HasNoStrings(f)
    case TOption(inner) => HasNoStrings(inner)
    case TEnum(variants) => forall x <- variants :: HasNoStrings(x)
    case TMap(key, value) => HasNoStrings(key) && HasNoStrings(value)
    case _ => true
  }

  predicate AllHaveNoStrings(p: Program) {
    forall name <- p.types :: forall f <- p.types[name] :: HasNoStrings(f)
  }

  lemma FieldsHaveNoStrings(p: Program, name: string)
    requires AllHaveNoStrings(p)
    ensures forall f <- p.Fields(name) :: HasNoStrings(f)
  {
    hide HasNoStrings;
  }

  /**
   For the Rust reader a spelling without strings is what the writer writes for a typed value
   within the limits: nothing else has a second form.
   */
  lemma {:induction false} SpelledIsWritten(c: Codec, v: Val, t: Ty, atoms: seq<Atom>)
    requires c.lang.Rust? && Spells(c, v, t, atoms)
    requires AllHaveNoStrings(c.wire.program) && HasNoStrings(t)
    requires AllBlocksArePlain(c.wire.program) && BlocksArePlain(c.wire.program, t)
    ensures HasType(c.wire.program, v, t) && WithinLimits(c.wire.program, true, v, t) && atoms == Flat(c.wire, v, t)
    decreases v, 1
  {
    hide FlatList, FlatFields, SpellsList, SpellsFields, AllHaveType, HaveTypes, ListWithinLimits, FieldsWithinLimits;
    hide LengthWord, BlockOf, IsBlockElement, NumberBytes, Power256, AllHaveNoStrings, AllBlocksArePlain;
    match v
    case VPrim(bits) =>
    case VList(items) =>
      match t {
        case TSeq(elem) => ListIsWritten(c, items, elem, atoms[1..]);
        case TMap(key, value) => ListIsWritten(c, items, TTuple([key, value]), atoms[1..]);
        case TArray(_, elem) => ListIsWritten(c, items, elem, atoms);
        case TBulkSeq(elem) =>
        case TBulkArray(_, elem) =>
        case TTuple(fields) => FieldsAreWritten(c, items, fields, atoms);
        case TMsg(name) =>
          FieldsHaveNoStrings(c.wire.program, name);
          FieldsArePlainBlocks(c.wire.program, name);
          FieldsAreWritten(c, items, c.wire.program.Fields(name), atoms);
      }
    case VNone =>
    case VSome(x) => SpelledIsWritten(c, x, t.inner, atoms[1..]);
    case VEnum(tag, x) => SpelledIsWritten(c, x, t.variants[tag], atoms[1..]);
  }

  lemma {:induction false} ListIsWritten(c: Codec, vs: seq<Val>, elem: Ty, atoms: seq<Atom>)
    requires c.lang.Rust? && SpellsList(c, vs, elem, atoms)
    requires AllHaveNoStrings(c.wire.program) && HasNoStrings(elem)
    requires AllBlocksArePlain(c.wire.program) && BlocksArePlain(c.wire.program, elem)
    ensures AllHaveType(c.wire.program, vs, elem) && ListWithinLimits(c.wire.program, true, vs, elem)
    ensures atoms == FlatList(c.wire, vs, elem)
    decreases vs, 0
  {
    hide Spells, HasType, WithinLimits, Flat, HasNoStrings, AllHaveNoStrings, AllBlocksArePlain, BlocksArePlain;
    if vs != [] {
      var i :| 0 <= i <= |atoms| && Spells(c, vs[0], elem, atoms[..i]) && SpellsList(c, vs[1..], elem, atoms[i..]);
      SpelledIsWritten(c, vs[0], elem, atoms[..i]);
      ListIsWritten(c, vs[1..], elem, atoms[i..]);
      assert atoms == atoms[..i] + atoms[i..];
    }
  }

  lemma {:induction false} FieldsAreWritten(c: Codec, vs: seq<Val>, ts: seq<Ty>, atoms: seq<Atom>)
    requires c.lang.Rust? && SpellsFields(c, vs, ts, atoms)
    requires AllHaveNoStrings(c.wire.program) && forall t <- ts :: HasNoStrings(t)
    requires AllBlocksArePlain(c.wire.program) && forall t <- ts :: BlocksArePlain(c.wire.program, t)
    ensures HaveTypes(c.wire.program, vs, ts) && FieldsWithinLimits(c.wire.program, true, vs, ts)
    ensures atoms == FlatFields(c.wire, vs, ts)
    decreases vs, 0
  {
    hide Spells, HasType, WithinLimits, Flat, HasNoStrings, AllHaveNoStrings, AllBlocksArePlain, BlocksArePlain;
    if vs != [] {
      var i :| 0 <= i <= |atoms|
        && Spells(c, vs[0], ts[0], atoms[..i]) && SpellsFields(c, vs[1..], ts[1..], atoms[i..]);
      SpelledIsWritten(c, vs[0], ts[0], atoms[..i]);
      FieldsAreWritten(c, vs[1..], ts[1..], atoms[i..]);
      assert atoms == atoms[..i] + atoms[i..];
    }
  }

  /**
   So without strings the Rust reader accepts the written encodings of typed values within its
   limits, up to the padding bytes, and nothing else.
   */
  lemma AcceptedIsWritten(c: Codec, v: Val, t: Ty, data: Bytes, pos: nat, e: nat)
    requires c.lang.Rust? && pos <= |data|
    requires AllHaveNoStrings(c.wire.program) && HasNoStrings(t)
    requires AllBlocksArePlain(c.wire.program) && BlocksArePlain(c.wire.program, t)
    ensures Decode(c, t, data, pos) == Ok(v, e) <==>
      && HasType(c.wire.program, v, t) && WithinLimits(c.wire.program, true, v, t)
      && Lies(data, pos, Flat(c.wire, v, t), e)
  {
    hide Decode, Spells, Flat, HasType, WithinLimits, BlocksArePlain, AllBlocksArePlain, HasNoStrings, AllHaveNoStrings;
    hide Carries, End;
    if Decode(c, t, data, pos) == Ok(v, e) {
      var atoms := AcceptedIsSpelled(c, t, data, pos);
      SpelledIsWritten(c, v, t, atoms);
    }
    if && HasType(c.wire.program, v, t) && WithinLimits(c.wire.program, true, v, t)
       && Lies(data, pos, Flat(c.wire, v, t), e)
    {
      RoundTrip(c, v, t, data, pos);
    }
  }
}
