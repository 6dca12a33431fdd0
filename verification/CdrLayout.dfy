/**
 Types, values and programs, and the memory of plain values on a little-endian
 host: the layout of `repr(C)` structs without padding, which is what the
 compiler accepts as plain.
 */
module CdrLayout {
  import opened CdrWire

  datatype Prim = Bool | I8 | U8 | I16 | U16 | I32 | U32 | I64 | U64 | F32 | F64 | Char

  // Width and boundary of a primitive are the same number of bytes.
  function Width(p: Prim): Boundary {
    match p
    case Bool | I8 | U8 => 1
    case I16 | U16 => 2
    case I32 | U32 | F32 | Char => 4
    case I64 | U64 | F64 => 8
  }

  /**
   The types that travel. A sequence or fixed array is written element by element, or, when
   the generator marked its elements as plain, as one block of memory (the bulk forms).
   */
  datatype Ty =
    | TPrim(prim: Prim)
    | TString
    | TSeq(elem: Ty)
    | TArray(len: nat, elem: Ty)
    | TBulkSeq(elem: Ty)
    | TBulkArray(len: nat, elem: Ty)
    | TTuple(fields: seq<Ty>)
    | TMsg(name: string)
    | TOption(inner: Ty)
    | TEnum(variants: seq<Ty>)
    | TMap(key: Ty, value: Ty)

  // builtin_interfaces Time and Duration: int32 sec, uint32 nanosec.
  const TIME: Ty := TTuple([TPrim(I32), TPrim(U32)])

  // Numbers are bit patterns: a signed number or a float is the pattern of its bits.
  datatype Val =
    | VPrim(bits: nat)
    | VString(chars: Bytes)
    | VList(items: seq<Val>)
    | VNone
    | VSome(value: Val)
    | VEnum(tag: nat, payload: Val)

  // ----- programs -----------------------------------------------------------

  /**
   The message types of a program by name. A message may contain itself, but
   only behind a sequence or an option: `rank` is the evidence the Go and Rust
   compilers ask for, since neither accepts a type of infinite size.
   */
  datatype MessageTypes = MessageTypes(types: map<string, seq<Ty>>, rank: map<string, nat>) {
    // A name the program does not define has no fields; such a program does not compile.
    function Fields(name: string): seq<Ty> {
      if name in types then types[name] else []
    }

    function RankOf(name: string): nat {
      if name in rank then rank[name] else 0
    }

    function Rank(t: Ty): nat {
      match t
      case TMsg(name) => RankOf(name) + 1
      case TArray(_, elem) => Rank(elem)
      case TBulkArray(_, elem) => Rank(elem)
      case TTuple(fields) => RankAll(fields)
      case TEnum(variants) => 0
      case _ => 0
    }

    function RankAll(ts: seq<Ty>): nat {
      if ts == [] then 0
      else
        var a, b := Rank(ts[0]), RankAll(ts[1..]);
        if a < b then b else a
    }

    predicate FiniteSize() {
      forall name <- types :: RankAll(types[name]) <= RankOf(name)
    }
  }

  type Program = p: MessageTypes | p.FiniteSize() witness MessageTypes(map[], map[])

  // ----- size and alignment ---------------------------------------------------

  // Numeric primitives, and arrays and packed structs of plain types; not bool, and not char.
  predicate IsPlain(p: Program, t: Ty)
    decreases p.Rank(t), t, 0
  {
    match t
    case TPrim(prim) => prim != Bool && prim != Char
    case TArray(_, elem) => IsPlain(p, elem)
    case TBulkArray(_, elem) => IsPlain(p, elem) && SizeOf(p, elem) > 0
    case TTuple(fields) => ArePlain(p, fields) && IsPacked(p, fields)
    case TMsg(name) => ArePlain(p, p.Fields(name)) && IsPacked(p, p.Fields(name))
    case _ => false
  }

  predicate ArePlain(p: Program, ts: seq<Ty>)
    decreases p.RankAll(ts), ts, 0
  {
    ts == [] || (IsPlain(p, ts[0]) && ArePlain(p, ts[1..]))
  }

  // align_of: an array has the alignment of its element, a struct the largest of its fields.
  function AlignOf(p: Program, t: Ty): Boundary
    decreases p.Rank(t), t, 0
  {
    match t
    case TPrim(prim) => Width(prim)
    case TArray(_, elem) => AlignOf(p, elem)
    case TBulkArray(_, elem) => AlignOf(p, elem)
    case TTuple(fields) => LargestAlign(p, fields)
    case TMsg(name) => LargestAlign(p, p.Fields(name))
    case _ => 1
  }

  function LargestAlign(p: Program, ts: seq<Ty>): Boundary
    decreases p.RankAll(ts), ts, 0
  {
    if ts == [] then 1
    else
      var a, b := AlignOf(p, ts[0]), LargestAlign(p, ts[1..]);
      if a < b then b else a
  }

  // size_of, for types without padding.
  function SizeOf(p: Program, t: Ty): nat
    decreases p.Rank(t), t, 0
  {
    match t
    case TPrim(prim) => Width(prim)
    case TArray(n, elem) => SizeOfSlice(p, elem, n)
    case TBulkArray(n, elem) => SizeOfSlice(p, elem, n)
    case TTuple(fields) => SizeOfAll(p, fields)
    case TMsg(name) => SizeOfAll(p, p.Fields(name))
    case _ => 0
  }

  function SizeOfSlice(p: Program, t: Ty, n: nat): nat
    decreases p.Rank(t), t, n + 1
  {
    if n == 0 then 0 else SizeOf(p, t) + SizeOfSlice(p, t, n - 1)
  }

  function SizeOfAll(p: Program, ts: seq<Ty>): nat
    decreases p.RankAll(ts), ts, 0
  {
    if ts == [] then 0 else SizeOf(p, ts[0]) + SizeOfAll(p, ts[1..])
  }

  // `derive(Pod)` refuses a struct with padding between its fields or behind the last one.
  predicate IsPacked(p: Program, ts: seq<Ty>)
    decreases p.RankAll(ts), ts, 1
  {
    FitsFrom(p, ts, 0) && SizeOfAll(p, ts) % LargestAlign(p, ts) == 0
  }

  predicate FitsFrom(p: Program, ts: seq<Ty>, offset: nat)
    decreases p.RankAll(ts), ts, 0
  {
    ts == [] || (offset % AlignOf(p, ts[0]) == 0 && FitsFrom(p, ts[1..], offset + SizeOf(p, ts[0])))
  }

  // The boundary of the first number in a value; 0 when there is none.
  function FirstAlign(p: Program, t: Ty): nat
    decreases p.Rank(t), t, 0
  {
    match t
    case TPrim(prim) => Width(prim)
    case TArray(n, elem) => if n == 0 then 0 else FirstAlign(p, elem)
    case TBulkArray(n, elem) => if n == 0 then 0 else FirstAlign(p, elem)
    case TTuple(fields) => FirstAlignOfAll(p, fields)
    case TMsg(name) => FirstAlignOfAll(p, p.Fields(name))
    case _ => 0
  }

  function FirstAlignOfAll(p: Program, ts: seq<Ty>): nat
    decreases p.RankAll(ts), ts, 0
  {
    if ts == [] then 0
    else if FirstAlign(p, ts[0]) > 0 then FirstAlign(p, ts[0])
    else FirstAlignOfAll(p, ts[1..])
  }

  // The width of the widest number in a value; 0 when there is none.
  function WidestNumber(p: Program, t: Ty): nat
    decreases p.Rank(t), t, 0
  {
    match t
    case TPrim(prim) => Width(prim)
    case TArray(n, elem) => if n == 0 then 0 else WidestNumber(p, elem)
    case TBulkArray(n, elem) => if n == 0 then 0 else WidestNumber(p, elem)
    case TTuple(fields) => WidestNumberOfAll(p, fields)
    case TMsg(name) => WidestNumberOfAll(p, p.Fields(name))
    case _ => 0
  }

  function WidestNumberOfAll(p: Program, ts: seq<Ty>): nat
    decreases p.RankAll(ts), ts, 0
  {
    if ts == [] then 0
    else
      var a, b := WidestNumber(p, ts[0]), WidestNumberOfAll(p, ts[1..]);
      if a < b then b else a
  }

  // What can be an element of a block. Elements without bytes are not part of this model.
  predicate IsBlockElement(p: Program, t: Ty) {
    IsPlain(p, t) && SizeOf(p, t) > 0
  }

  // ----- memory -----------------------------------------------------------------

  function Memory(p: Program, v: Val, t: Ty): Bytes
    decreases v
  {
    match v
    case VPrim(bits) => if t.TPrim? then LittleBytes(bits, Width(t.prim)) else []
    case VList(items) =>
      (match t
       case TArray(_, elem) => MemoryOfSlice(p, items, elem)
       case TBulkArray(_, elem) => MemoryOfSlice(p, items, elem)
       case TTuple(fields) => MemoryOfFields(p, items, fields)
       case TMsg(name) => MemoryOfFields(p, items, p.Fields(name))
       case _ => [])
    case _ => []
  }

  function MemoryOfSlice(p: Program, vs: seq<Val>, t: Ty): Bytes
    decreases vs
  {
    if vs == [] then [] else Memory(p, vs[0], t) + MemoryOfSlice(p, vs[1..], t)
  }

  function MemoryOfFields(p: Program, vs: seq<Val>, ts: seq<Ty>): Bytes
    decreases vs
  {
    if vs == [] || ts == [] then [] else Memory(p, vs[0], ts[0]) + MemoryOfFields(p, vs[1..], ts[1..])
  }

  function FromMemory(p: Program, t: Ty, m: Bytes): Val
    requires |m| == SizeOf(p, t)
    decreases p.Rank(t), t, 0
  {
    match t
    case TPrim(_) => VPrim(LittleValue(m))
    case TArray(n, elem) => VList(SliceFromMemory(p, elem, n, m))
    case TBulkArray(n, elem) => VList(SliceFromMemory(p, elem, n, m))
    case TTuple(fields) => VList(FieldsFromMemory(p, fields, m))
    case TMsg(name) => VList(FieldsFromMemory(p, p.Fields(name), m))
    case _ => VList([])
  }

  function SliceFromMemory(p: Program, t: Ty, n: nat, m: Bytes): (r: seq<Val>)
    requires |m| == SizeOfSlice(p, t, n)
    ensures |r| == n
    decreases p.Rank(t), t, n + 1
  {
    if n == 0 then []
    else [FromMemory(p, t, m[..SizeOf(p, t)])] + SliceFromMemory(p, t, n - 1, m[SizeOf(p, t)..])
  }

  function FieldsFromMemory(p: Program, ts: seq<Ty>, m: Bytes): (r: seq<Val>)
    requires |m| == SizeOfAll(p, ts)
    ensures |r| == |ts|
    decreases p.RankAll(ts), ts, 0
  {
    if ts == [] then []
    else
      var size := SizeOf(p, ts[0]);
      [FromMemory(p, ts[0], m[..size])] + FieldsFromMemory(p, ts[1..], m[size..])
  }
}
