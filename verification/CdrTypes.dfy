/**
 The two meanings the codecs share: `Flat`, the atoms a typed value is written as,
 and `Decode`, what a reader makes of bytes. The three readers of the repository
 (the Rust one, and the emitted Go one with and without its length guards) differ
 in a handful of places; `Lang` names the reader and `Decode` shows every
 difference.
 */
module CdrTypes {
  import opened CdrWire
  import opened CdrLayout

  // ----- readers ------------------------------------------------------------

  // Go's guards rest on the sizes of the messages the generator knew by name.
  datatype Lang = Rust | Go | GuardedGo(known: set<string>)

  // What decides the bytes of a value, whoever writes it.
  datatype Wire = Wire(order: ByteOrder, program: Program)

  datatype Codec = Codec(wire: Wire, lang: Lang)

  datatype Error =
    | UnexpectedEof
    | InvalidBool(byte: nat)
    | InvalidChar(codepoint: nat)
    | InvalidOptionTag(tag: nat)
    | UnknownVariant(index: nat)
    | SequenceTooLong(length: nat)
    | Utf8

  datatype Decoded<T> = Ok(value: T, pos: nat) | Err(error: Error) {
    predicate IsFailure() { Err? }
    function PropagateFailure<U>(): Decoded<U> requires Err? { Err(error) }
    function Extract(): (T, nat) requires Ok? { (value, pos) }
  }

  const MAX_SEQUENCE_LENGTH: nat := 100_000_000

  // Unicode scalar values, the range of a Rust char.
  predicate IsScalar(c: nat) {
    c < 0xD800 || 0xE000 <= c <= 0x10_FFFF
  }

  predicate IsContinuation(b: Byte) {
    0x80 <= b <= 0xBF
  }

  // Well-formed UTF-8, RFC 3629 section 4.
  predicate IsUtf8(s: Bytes) {
    if s == [] then true
    else if s[0] < 0x80 then IsUtf8(s[1..])
    else if 0xC2 <= s[0] <= 0xDF then
      2 <= |s| && IsContinuation(s[1]) && IsUtf8(s[2..])
    else if 0xE0 <= s[0] <= 0xEF then
      && 3 <= |s| && IsContinuation(s[1]) && IsContinuation(s[2])
      && (s[0] == 0xE0 ==> 0xA0 <= s[1]) && (s[0] == 0xED ==> s[1] <= 0x9F)
      && IsUtf8(s[3..])
    else if 0xF0 <= s[0] <= 0xF4 then
      && 4 <= |s| && IsContinuation(s[1]) && IsContinuation(s[2]) && IsContinuation(s[3])
      && (s[0] == 0xF0 ==> 0x90 <= s[1]) && (s[0] == 0xF4 ==> s[1] <= 0x8F)
      && IsUtf8(s[4..])
    else false
  }

  // ----- typing -------------------------------------------------------------

  predicate HasType(p: Program, v: Val, t: Ty)
    decreases v
  {
    match t
    case TPrim(prim) =>
      && v.VPrim? && v.bits < Power256(Width(prim))
      && (prim == Bool ==> v.bits <= 1) && (prim == Char ==> IsScalar(v.bits))
    case TString => v.VString?
    case TSeq(elem) => v.VList? && AllHaveType(p, v.items, elem)
    case TArray(n, elem) => v.VList? && |v.items| == n && AllHaveType(p, v.items, elem)
    case TBulkSeq(elem) => IsBlockElement(p, elem) && v.VList? && AllHaveType(p, v.items, elem)
    case TBulkArray(n, elem) =>
      IsBlockElement(p, elem) && v.VList? && |v.items| == n && AllHaveType(p, v.items, elem)
    case TTuple(fields) => v.VList? && HaveTypes(p, v.items, fields)
    case TMsg(name) => v.VList? && HaveTypes(p, v.items, p.Fields(name))
    case TOption(inner) => v.VNone? || (v.VSome? && HasType(p, v.value, inner))
    case TEnum(variants) => v.VEnum? && v.tag < |variants| && HasType(p, v.payload, variants[v.tag])
    case TMap(key, value) => v.VList? && AllHaveType(p, v.items, TTuple([key, value]))
  }

  predicate AllHaveType(p: Program, vs: seq<Val>, elem: Ty)
    decreases vs
  {
    forall i | 0 <= i < |vs| :: HasType(p, vs[i], elem)
  }

  predicate HaveTypes(p: Program, vs: seq<Val>, ts: seq<Ty>)
    decreases vs
  {
    |vs| == |ts| && forall i | 0 <= i < |vs| :: HasType(p, vs[i], ts[i])
  }

  /**
   The limits under which a reader gives a typed value back. The prefixes are 32 bits
   wide, so both languages need every length to fit; the Rust reader is strict: it refuses
   sequences of more than 100,000,000 elements and strings that are not UTF-8. A fixed
   array of no plain elements is written with padding that no reader skips.
   */
  predicate WithinLimits(p: Program, strict: bool, v: Val, t: Ty)
    decreases v
  {
    match v
    case VString(s) => |s| + 1 < TWO_TO_THE_32 && (strict ==> IsUtf8(s))
    case VList(items) =>
      (match t
       case TSeq(elem) => LengthFits(strict, |items|) && ListWithinLimits(p, strict, items, elem)
       case TMap(key, value) => LengthFits(strict, |items|) && ListWithinLimits(p, strict, items, TTuple([key, value]))
       case TArray(_, elem) => ListWithinLimits(p, strict, items, elem)
       case TBulkSeq(elem) => LengthFits(strict, |items|)
       case TBulkArray(n, elem) => n > 0 || AlignOf(p, elem) == 1
       case TTuple(fields) => FieldsWithinLimits(p, strict, items, fields)
       case TMsg(name) => FieldsWithinLimits(p, strict, items, p.Fields(name))
       case _ => true)
    case VSome(x) => t.TOption? ==> WithinLimits(p, strict, x, t.inner)
    case VEnum(tag, x) =>
      && tag < TWO_TO_THE_32
      && (t.TEnum? && tag < |t.variants| ==> WithinLimits(p, strict, x, t.variants[tag]))
    case _ => true
  }

  predicate LengthFits(strict: bool, n: nat) {
    if strict then n <= MAX_SEQUENCE_LENGTH else n < TWO_TO_THE_32
  }

  predicate ListWithinLimits(p: Program, strict: bool, vs: seq<Val>, elem: Ty)
    decreases vs
  {
    forall i | 0 <= i < |vs| :: WithinLimits(p, strict, vs[i], elem)
  }

  predicate FieldsWithinLimits(p: Program, strict: bool, vs: seq<Val>, ts: seq<Ty>)
    decreases vs
  {
    forall i | 0 <= i < |vs| && i < |ts| :: WithinLimits(p, strict, vs[i], ts[i])
  }

  // ----- encoding -----------------------------------------------------------

  // `len as u32`: a length prefix keeps the low 32 bits.
  function LengthWord(w: Wire, n: nat): Atom {
    Word(w.order, n % TWO_TO_THE_32, 4)
  }

  // `write_pod_slice`: the memory of a slice, in the byte order of the host.
  function BlockOf(p: Program, items: seq<Val>, elem: Ty): Atom {
    Atom(AlignOf(p, elem), MemoryOfSlice(p, items, elem))
  }

  function Flat(w: Wire, v: Val, t: Ty): seq<Atom>
    decreases v
  {
    match v
    case VPrim(bits) => if t.TPrim? then [Word(w.order, bits, Width(t.prim))] else []
    case VString(s) => [LengthWord(w, |s| + 1), Atom(1, s + [0])]
    case VList(items) =>
      (match t
       case TSeq(elem) => [LengthWord(w, |items|)] + FlatList(w, items, elem)
       case TMap(key, value) => [LengthWord(w, |items|)] + FlatList(w, items, TTuple([key, value]))
       case TArray(_, elem) => FlatList(w, items, elem)
       case TBulkSeq(elem) =>
         [LengthWord(w, |items|)] + (if items == [] then [] else [BlockOf(w.program, items, elem)])
       case TBulkArray(_, elem) => [BlockOf(w.program, items, elem)]
       case TTuple(fields) => FlatFields(w, items, fields)
       case TMsg(name) => FlatFields(w, items, w.program.Fields(name))
       case _ => [])
    case VNone => [LengthWord(w, 0)]
    case VSome(x) => [LengthWord(w, 1)] + (if t.TOption? then Flat(w, x, t.inner) else [])
    case VEnum(tag, x) =>
      [LengthWord(w, tag)]
      + (if t.TEnum? && tag < |t.variants| then Flat(w, x, t.variants[tag]) else [])
  }

  function FlatList(w: Wire, vs: seq<Val>, elem: Ty): seq<Atom>
    decreases vs
  {
    if vs == [] then [] else Flat(w, vs[0], elem) + FlatList(w, vs[1..], elem)
  }

  function FlatFields(w: Wire, vs: seq<Val>, ts: seq<Ty>): seq<Atom>
    decreases vs
  {
    if vs == [] || ts == [] then [] else Flat(w, vs[0], ts[0]) + FlatFields(w, vs[1..], ts[1..])
  }

  // ----- minimum sizes ------------------------------------------------------

  const MAX_MIN_SIZE: nat := 0x8000_0000
  const MAX_INT32: nat := 0x7FFF_FFFF

  function Min(a: nat, b: nat): nat {
    if a < b then a else b
  }

  // The bytes one occurrence of an element type takes at least, padding ignored.
  function MinOne(p: MessageTypes, known: set<string>, visiting: set<string>, t: Ty): nat
    decreases known - visiting, t, 0
  {
    match t
    case TPrim(prim) => Width(prim)
    case TString => 4
    case TTuple(fields) => MinTotal(p, known, visiting, fields, 0)
    case TMsg(name) =>
      if name !in known || name in visiting then 0
      else MinTotal(p, known, visiting + {name}, p.Fields(name), 0)
    case _ => 0
  }

  /**
   The size accumulated over the fields of a message. A sequence adds its length prefix
   and skips the cap; everything else is capped at once.
   */
  function MinTotal(p: MessageTypes, known: set<string>, visiting: set<string>, ts: seq<Ty>, total: nat): nat
    decreases known - visiting, ts, 0
  {
    if ts == [] then total
    else if ts[0].TSeq? then MinTotal(p, known, visiting, ts[1..], total + 4)
    else
      var sum := total + MinField(p, known, visiting, ts[0]);
      if sum > MAX_MIN_SIZE then MAX_MIN_SIZE else MinTotal(p, known, visiting, ts[1..], sum)
  }

  function MinField(p: MessageTypes, known: set<string>, visiting: set<string>, t: Ty): nat
    decreases known - visiting, t, 1
  {
    if t.TArray? then Min(t.len, MAX_MIN_SIZE) * MinOne(p, known, visiting, t.elem)
    else MinOne(p, known, visiting, t)
  }

  // ----- decoding -----------------------------------------------------------

  function DecodeWord(c: Codec, data: Bytes, pos: nat, n: Boundary): (r: Decoded<nat>)
    ensures r.Ok? ==> pos + n <= r.pos <= |data| && r.value < Power256(n)
  {
    var p := pos + Padding(pos, n);
    if p + n <= |data| then Ok(NumberValue(c.wire.order, data[p..p + n]), p + n) else Err(UnexpectedEof)
  }

  function DecodePrim(c: Codec, prim: Prim, data: Bytes, pos: nat): (r: Decoded<Val>)
    ensures r.Ok? ==> pos + Width(prim) <= r.pos <= |data|
  {
    var (bits, q) :- DecodeWord(c, data, pos, Width(prim));
    match prim
    case Bool =>
      if !c.lang.Rust? then Ok(VPrim(if bits == 0 then 0 else 1), q)
      else if bits <= 1 then Ok(VPrim(bits), q)
      else Err(InvalidBool(bits))
    case Char => if c.lang.Rust? && !IsScalar(bits) then Err(InvalidChar(bits)) else Ok(VPrim(bits), q)
    case _ => Ok(VPrim(bits), q)
  }

  // Go always drops the last byte; Rust drops it when it is a NUL and then asks for UTF-8.
  function DecodeString(c: Codec, data: Bytes, pos: nat): (r: Decoded<Val>)
    ensures r.Ok? ==> pos + 4 <= r.pos <= |data|
  {
    var (n, q) :- DecodeWord(c, data, pos, 4);
    if n == 0 then Ok(VString([]), q)
    else if q + n > |data| then Err(UnexpectedEof)
    else
      var raw := data[q..q + n];
      var s := if c.lang.Rust? && raw[n - 1] != 0 then raw else raw[..n - 1];
      if c.lang.Rust? && !IsUtf8(s) then Err(Utf8) else Ok(VString(s), q + n)
  }

  // The check emitted before an allocation: are there min bytes for each of n elements?
  function LengthGuard(c: Codec, elem: Ty): (min: nat) {
    if !c.lang.GuardedGo? then 0
    else
      match elem
      case TPrim(prim) => Width(prim)
      case TString => 4
      case TTuple(_) => if elem == TIME then 8 else 0
      case _ => 0
  }

  // The check emitted before each element of a sequence of messages; 0 stands for no check.
  function ElementGuard(c: Codec, elem: Ty): (min: nat) {
    if c.lang.GuardedGo? && elem.TMsg? then Min(MinOne(c.wire.program, c.lang.known, {}, elem), MAX_INT32) else 0
  }

  function DecodeLength(c: Codec, elem: Ty, data: Bytes, pos: nat): (r: Decoded<nat>)
    ensures r.Ok? ==> pos + 4 <= r.pos <= |data|
  {
    var (n, q) :- DecodeWord(c, data, pos, 4);
    var min := LengthGuard(c, elem);
    if c.lang.Rust? && n > MAX_SEQUENCE_LENGTH then Err(SequenceTooLong(n))
    else if min > 0 && n > (|data| - q) / min then Err(SequenceTooLong(n))
    else Ok(n, q)
  }

  // `read_pod_slice`: nothing for an empty slice, otherwise one aligned block of memory.
  function DecodeBlock(p: Program, elem: Ty, n: nat, data: Bytes, pos: nat): (r: Decoded<seq<Val>>)
    requires pos <= |data|
    ensures r.Ok? ==> pos <= r.pos <= |data| && |r.value| == n
  {
    var q, size := pos + Padding(pos, AlignOf(p, elem)), SizeOfSlice(p, elem, n);
    if n == 0 then Ok([], pos)
    else if q + size <= |data| then Ok(SliceFromMemory(p, elem, n, data[q..q + size]), q + size)
    else Err(UnexpectedEof)
  }

  function Decode(c: Codec, t: Ty, data: Bytes, pos: nat): (r: Decoded<Val>)
    requires pos <= |data|
    ensures r.Ok? ==> pos <= r.pos <= |data|
    decreases |data| - pos, c.wire.program.Rank(t), t, 0
  {
    match t
    case TPrim(prim) => DecodePrim(c, prim, data, pos)
    case TString => DecodeString(c, data, pos)
    case TSeq(elem) =>
      var (n, q) :- DecodeLength(c, elem, data, pos);
      var (vs, e) :- DecodeList(c, elem, n, ElementGuard(c, elem), data, q);
      Ok(VList(vs), e)
    case TArray(n, elem) =>
      var (vs, e) :- DecodeList(c, elem, n, 0, data, pos);
      Ok(VList(vs), e)
    case TBulkSeq(elem) =>
      var (n, q) :- DecodeLength(c, t, data, pos);
      var (vs, e) :- DecodeBlock(c.wire.program, elem, n, data, q);
      Ok(VList(vs), e)
    case TBulkArray(n, elem) =>
      var (vs, e) :- DecodeBlock(c.wire.program, elem, n, data, pos);
      Ok(VList(vs), e)
    case TTuple(fields) =>
      var (vs, e) :- DecodeFields(c, fields, data, pos);
      Ok(VList(vs), e)
    case TMsg(name) =>
      var (vs, e) :- DecodeFields(c, c.wire.program.Fields(name), data, pos);
      Ok(VList(vs), e)
    case TOption(inner) =>
      var (tag, q) :- DecodeWord(c, data, pos, 4);
      if tag == 0 then Ok(VNone, q)
      else if tag == 1 then
        var (x, e) :- Decode(c, inner, data, q);
        Ok(VSome(x), e)
      else Err(InvalidOptionTag(tag))
    case TEnum(variants) =>
      var (tag, q) :- DecodeWord(c, data, pos, 4);
      if tag < |variants| then
        var (x, e) :- Decode(c, variants[tag], data, q);
        Ok(VEnum(tag, x), e)
      else Err(UnknownVariant(tag))
    case TMap(key, value) =>
      var (n, q) :- DecodeLength(c, t, data, pos);
      var (vs, e) :- DecodeList(c, TTuple([key, value]), n, 0, data, q);
      Ok(VList(vs), e)
  }

  // n elements one after the other, each only when at least `need` bytes are left.
  function DecodeList(c: Codec, elem: Ty, n: nat, need: nat, data: Bytes, pos: nat): (r: Decoded<seq<Val>>)
    requires pos <= |data|
    ensures r.Ok? ==> pos <= r.pos <= |data| && |r.value| == n
    decreases |data| - pos, c.wire.program.Rank(elem), elem, n + 1
  {
    if n == 0 then Ok([], pos)
    else if |data| - pos < need then Err(UnexpectedEof)
    else
      var (v, q) :- Decode(c, elem, data, pos);
      var (vs, e) :- DecodeList(c, elem, n - 1, need, data, q);
      Ok([v] + vs, e)
  }

  function DecodeFields(c: Codec, ts: seq<Ty>, data: Bytes, pos: nat): (r: Decoded<seq<Val>>)
    requires pos <= |data|
    ensures r.Ok? ==> pos <= r.pos <= |data| && |r.value| == |ts|
    decreases |data| - pos, c.wire.program.RankAll(ts), ts, 0
  {
    if ts == [] then Ok([], pos)
    else
      var (v, q) :- Decode(c, ts[0], data, pos);
      var (vs, e) :- DecodeFields(c, ts[1..], data, q);
      Ok([v] + vs, e)
  }

  // ----- reading in a loop -------------------------------------------------------

  // What is left of a list or of a message once `vs` has been read.
  function Behind(vs: seq<Val>, rest: Decoded<seq<Val>>): Decoded<seq<Val>> {
    if rest.Ok? then Ok(vs + rest.value, rest.pos) else rest
  }

  lemma BehindNothing(rest: Decoded<seq<Val>>)
    ensures Behind([], rest) == rest
  {
    assert rest.Ok? ==> [] + rest.value == rest.value;
  }

  lemma BehindOne(vs: seq<Val>, v: Val, rest: Decoded<seq<Val>>)
    ensures Behind(vs, Behind([v], rest)) == Behind(vs + [v], rest)
  {
    if rest.Ok? {
      assert vs + ([v] + rest.value) == (vs + [v]) + rest.value;
    }
  }

  lemma {:induction false} RankOfField(p: Program, ts: seq<Ty>, i: nat)
    requires i < |ts|
    ensures p.Rank(ts[i]) <= p.RankAll(ts)
  {
    if i > 0 {
      RankOfField(p, ts[1..], i - 1);
    }
  }
}
