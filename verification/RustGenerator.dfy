/**
 The Rust generator: which message types it takes for plain, and the types the
 CDR impls it emits stand for. Arrays and sequences of plain elements are copied
 in bulk on a little-endian host and looped over on a big-endian one.
 */
module RustGenerator {
  import opened CdrWire
  import opened CdrLayout
  import opened CdrTypes
  import opened CdrBulk
  import opened CdrOrders
  import opened CdrBlocks
  import opened CdrTraits
  import opened TypeNames
  import opened TypeDescriptions

  // ----- plain types ----------------------------------------------------------------

  // An entry "package::Name" of the plain set, or a bare name that was looked up in it.
  datatype PlainKey = PlainKey(package: Option<string>, name: string)

  function KeyOf(m: ParsedMessage): PlainKey {
    PlainKey(Some(m.package), m.name)
  }

  function PrimitiveAlign(base: string): Option<Boundary> {
    if base in {"byte", "uint8", "int8"} then Some(1)
    else if base in {"uint16", "int16"} then Some(2)
    else if base in {"uint32", "int32", "float32"} then Some(4)
    else if base in {"uint64", "int64", "float64"} then Some(8)
    else None
  }

  predicate IsBaseTypePlain(base: string, package: Option<string>, plain: set<PlainKey>) {
    if base in {"bool", "string", "wstring", "char", "wchar"} then false
    else PrimitiveAlign(base).Some? || PlainKey(package, base) in plain
  }

  // Sequences never are; a type of the same package without its prefix is not looked up there.
  predicate IsFieldPlain(ft: FieldType, plain: set<PlainKey>) {
    !ft.arrayType.Unbounded? && !ft.arrayType.Bounded? && IsBaseTypePlain(ft.baseType, ft.package, plain)
  }

  // All fields of primitive type have one alignment.
  predicate OneAlignment(fields: seq<Field>) {
    forall f <- fields, g <- fields ::
      var a, b := PrimitiveAlign(f.fieldType.baseType), PrimitiveAlign(g.fieldType.baseType);
      a.Some? && b.Some? ==> a == b
  }

  predicate Qualifies(m: ParsedMessage, plain: set<PlainKey>) {
    (forall f <- m.fields :: IsFieldPlain(f.fieldType, plain)) && OneAlignment(m.fields)
  }

  // Everything that qualifies is in.
  predicate IsClosed(messages: seq<ParsedMessage>, plain: set<PlainKey>) {
    forall m <- messages :: Qualifies(m, plain) ==> KeyOf(m) in plain
  }

  // Everything that is in qualifies.
  predicate IsSupportedBy(messages: seq<ParsedMessage>, plain: set<PlainKey>) {
    forall k <- plain :: exists m <- messages :: KeyOf(m) == k && Qualifies(m, plain)
  }

  lemma QualifiesIsMonotonic(m: ParsedMessage, plain: set<PlainKey>, more: set<PlainKey>)
    requires plain <= more && Qualifies(m, plain)
    ensures Qualifies(m, more)
  {
  }

  // The alignment check of one message.
  method HasOneAlignment(fields: seq<Field>) returns (r: bool)
    ensures r == OneAlignment(fields)
  {
    hide PrimitiveAlign;
    var maxAlign: Option<Boundary> := None;
    for i := 0 to |fields|
      invariant forall j | 0 <= j < i :: PrimitiveAlign(fields[j].fieldType.baseType).Some? ==>
        maxAlign == PrimitiveAlign(fields[j].fieldType.baseType)
      invariant maxAlign.Some? ==> exists j | 0 <= j < i :: PrimitiveAlign(fields[j].fieldType.baseType) == maxAlign
    {
      var a := PrimitiveAlign(fields[i].fieldType.baseType);
      if a.Some? {
        if maxAlign.None? {
          maxAlign := a;
        } else if maxAlign != a {
          assert fields[i] in fields;
          return false;
        }
      }
    }
    r := true;
  }

  /**
   `compute_plain_types`: rounds over all messages until none is added. The result is the
   least set that contains every message that qualifies, so it does not depend on the order,
   and everything in it qualifies.
   */
  method ComputePlainTypes(messages: seq<ParsedMessage>) returns (plain: set<PlainKey>)
    ensures IsClosed(messages, plain) && IsSupportedBy(messages, plain)
    ensures forall other :: IsClosed(messages, other) ==> plain <= other
  {
    hide Qualifies;
    ghost var all := set m <- messages :: KeyOf(m);
    plain := {};
    while true
      invariant plain <= all && IsSupportedBy(messages, plain)
      invariant forall other :: IsClosed(messages, other) ==> plain <= other
      decreases all - plain
    {
      var before := plain;
      for i := 0 to |messages|
        invariant before <= plain <= all && IsSupportedBy(messages, plain)
        invariant forall other :: IsClosed(messages, other) ==> plain <= other
        invariant plain == before ==>
          forall j | 0 <= j < i :: Qualifies(messages[j], plain) ==> KeyOf(messages[j]) in plain
      {
        var m := messages[i];
        assert m in messages;
        if KeyOf(m) !in plain {
          var qualifies := Check(m, plain);
          if qualifies {
            AddKeepsSupport(messages, plain, m);
            AddStaysLeast(messages, plain, m);
            plain := plain + {KeyOf(m)};
          }
        }
      }
      if |plain| == |before| {
        SameSize(before, plain);
        break;
      }
    }
  }

  lemma SameSize(a: set<PlainKey>, b: set<PlainKey>)
    requires a <= b && |a| == |b|
    ensures a == b
  {
    assert b == a + (b - a);
  }

  method Check(m: ParsedMessage, plain: set<PlainKey>) returns (r: bool)
    ensures r == Qualifies(m, plain)
  {
    if exists f <- m.fields :: !IsFieldPlain(f.fieldType, plain) {
      return false;
    }
    r := HasOneAlignment(m.fields);
  }

  lemma AddKeepsSupport(messages: seq<ParsedMessage>, plain: set<PlainKey>, m: ParsedMessage)
    requires IsSupportedBy(messages, plain) && m in messages && Qualifies(m, plain)
    ensures IsSupportedBy(messages, plain + {KeyOf(m)})
  {
    hide Qualifies;
    var more := plain + {KeyOf(m)};
    forall k | k in more ensures exists n <- messages :: KeyOf(n) == k && Qualifies(n, more) {
      if k in plain {
        var n :| n in messages && KeyOf(n) == k && Qualifies(n, plain);
        QualifiesIsMonotonic(n, plain, more);
      } else {
        QualifiesIsMonotonic(m, plain, more);
      }
    }
  }

  lemma AddStaysLeast(messages: seq<ParsedMessage>, plain: set<PlainKey>, m: ParsedMessage)
    requires m in messages && Qualifies(m, plain)
    requires forall other :: IsClosed(messages, other) ==> plain <= other
    ensures forall other :: IsClosed(messages, other) ==> plain + {KeyOf(m)} <= other
  {
    hide Qualifies;
    forall other | IsClosed(messages, other) ensures KeyOf(m) in other {
      QualifiesIsMonotonic(m, plain, other);
    }
  }

  // ----- the types of the emitted impls ---------------------------------------------------

  // Rust's char is an i8 here, with the bit patterns of the u8 it is elsewhere.
  function PrimOf(base: string): Option<Prim> {
    if base == "bool" then Some(Bool)
    else if base == "byte" || base == "uint8" || base == "char" then Some(U8)
    else if base == "int8" then Some(I8)
    else if base == "uint16" then Some(U16)
    else if base == "int16" then Some(I16)
    else if base == "uint32" then Some(U32)
    else if base == "int32" then Some(I32)
    else if base == "uint64" then Some(U64)
    else if base == "int64" then Some(I64)
    else if base == "float32" then Some(F32)
    else if base == "float64" then Some(F64)
    else None
  }

  // What the builtin names are on the wire: a number of so many bytes, and bool alone is checked.
  lemma NamesHaveWidths(base: string)
    ensures PrimOf(base).Some? <==>
      base in {"bool", "byte", "char", "uint8", "int8", "uint16", "int16", "uint32", "int32",
               "uint64", "int64", "float32", "float64"}
    ensures PrimOf(base).Some? ==>
      (Width(PrimOf(base).value) ==
         if base in {"bool", "byte", "char", "uint8", "int8"} then 1
         else if base in {"uint16", "int16"} then 2
         else if base in {"uint32", "int32", "float32"} then 4
         else 8)
    ensures PrimOf(base) == Some(Bool) <==> base == "bool"
    ensures PrimOf(base) != Some(Char)
  {
  }

  // Every builtin number is taken for plain, except char, whatever messages are.
  lemma TakenForPlainExactly(base: string, package: Option<string>, plain: set<PlainKey>)
    requires PrimOf(base).Some?
    ensures IsBaseTypePlain(base, package, plain) <==> base != "bool" && base != "char"
    ensures IsBaseTypePlain(base, package, plain) ==> PrimitiveAlign(base) == Some(Width(PrimOf(base).value))
  {
  }

  /**
   When a message of builtin types qualifies: all fields are single numbers or fixed arrays of
   them, none is a bool, a char or a string, and they have one width.
   */
  lemma UnnestedQualifiesExactly(m: ParsedMessage, plain: set<PlainKey>)
    requires forall f <- m.fields :: PrimOf(f.fieldType.baseType).Some? || f.fieldType.baseType == "string"
    ensures Qualifies(m, plain) <==>
      && (forall f <- m.fields ::
            && (f.fieldType.arrayType.Single? || f.fieldType.arrayType.Fixed?)
            && f.fieldType.baseType !in {"bool", "char", "string"})
      && forall f <- m.fields, g <- m.fields ::
           PrimOf(f.fieldType.baseType).Some? && PrimOf(g.fieldType.baseType).Some? ==>
             Width(PrimOf(f.fieldType.baseType).value) == Width(PrimOf(g.fieldType.baseType).value)
  {
    hide IsBaseTypePlain, PrimitiveAlign, PrimOf, Width;
    forall f | f in m.fields
      ensures PrimOf(f.fieldType.baseType).Some? ==>
        && (IsBaseTypePlain(f.fieldType.baseType, f.fieldType.package, plain)
            <==> f.fieldType.baseType != "bool" && f.fieldType.baseType != "char")
        && (IsBaseTypePlain(f.fieldType.baseType, f.fieldType.package, plain) ==>
              PrimitiveAlign(f.fieldType.baseType) == Some(Width(PrimOf(f.fieldType.baseType).value)))
    {
      if PrimOf(f.fieldType.baseType).Some? {
        TakenForPlainExactly(f.fieldType.baseType, f.fieldType.package, plain);
      }
    }
    StringsAreNeither(plain);
  }

  /**
   A reference to a message is looked up under the package it is written with. One without a
   package finds nothing, also in its own package, and keeps the message from qualifying.
   */
  lemma NestedQualifiesExactly(messages: seq<ParsedMessage>, plain: set<PlainKey>, m: ParsedMessage, f: Field)
    requires IsSupportedBy(messages, plain) && f in m.fields && !IsPrimitive(f.fieldType.baseType)
    ensures IsFieldPlain(f.fieldType, plain) <==>
      && (f.fieldType.arrayType.Single? || f.fieldType.arrayType.Fixed?) && f.fieldType.baseType != "wchar"
      && f.fieldType.package.Some? && PlainKey(f.fieldType.package, f.fieldType.baseType) in plain
    ensures f.fieldType.package.None? ==> !Qualifies(m, plain)
  {
  }

  lemma StringsAreNeither(plain: set<PlainKey>)
    ensures PrimOf("string").None? && forall package :: !IsBaseTypePlain("string", package, plain)
  {
  }

  function RustElemTy(ft: FieldType, source: string): Ty {
    if PrimOf(ft.baseType).Some? then TPrim(PrimOf(ft.baseType).value)
    else if ft.baseType == "string" then TString
    else TMsg(Key(PackageFor(ft, source), ft.baseType))
  }

  // The field generators look a type without a package up in the package of the message.
  predicate IsBulk(host: ByteOrder, plain: set<PlainKey>, ft: FieldType, source: string) {
    && host.Little? && !ft.arrayType.Single?
    && IsBaseTypePlain(ft.baseType, Some(PackageFor(ft, source)), plain)
  }

  // A ZBuf field holds octets and is written and read as a bulk sequence of them.
  function RustTy(host: ByteOrder, plain: set<PlainKey>, f: Field, source: string): Ty {
    var elem := RustElemTy(f.fieldType, source);
    match f.fieldType.arrayType
    case Single => elem
    case Fixed(n) => if IsBulk(host, plain, f.fieldType, source) then TBulkArray(n, elem) else TArray(n, elem)
    case _ => if IsBulk(host, plain, f.fieldType, source) then TBulkSeq(elem) else TSeq(elem)
  }

  // Fields of a builtin type are copied in bulk exactly as arrays of numbers on a little-endian host.
  lemma CopiedInBulkExactly(host: ByteOrder, plain: set<PlainKey>, f: Field, source: string)
    requires PrimOf(f.fieldType.baseType).Some?
    ensures var t := RustTy(host, plain, f, source);
      var numbers := host.Little? && f.fieldType.baseType !in {"bool", "char"};
      && (t.TBulkArray? <==> numbers && f.fieldType.arrayType.Fixed?)
      && (t.TBulkSeq? <==> numbers && (f.fieldType.arrayType.Bounded? || f.fieldType.arrayType.Unbounded?))
      && (t.TPrim? <==> f.fieldType.arrayType.Single?)
  {
    hide PrimOf, IsBaseTypePlain;
    TakenForPlainExactly(f.fieldType.baseType, Some(PackageFor(f.fieldType, source)), plain);
  }

  // And fields of a message type exactly when that message, looked up with its package, is plain.
  lemma MessagesCopiedInBulkExactly(host: ByteOrder, plain: set<PlainKey>, f: Field, source: string)
    requires !IsPrimitive(f.fieldType.baseType) && f.fieldType.baseType != "wchar"
    ensures var t := RustTy(host, plain, f, source);
      var copied := host.Little? && PlainKey(Some(PackageFor(f.fieldType, source)), f.fieldType.baseType) in plain;
      && (t.TBulkArray? <==> copied && f.fieldType.arrayType.Fixed?)
      && (t.TBulkSeq? <==> copied && (f.fieldType.arrayType.Bounded? || f.fieldType.arrayType.Unbounded?))
      && (t.TMsg? <==> f.fieldType.arrayType.Single?)
  {
  }

  function RustTys(host: ByteOrder, plain: set<PlainKey>, fields: seq<Field>, source: string): (r: seq<Ty>)
    ensures |r| == |fields| && forall i | 0 <= i < |fields| :: r[i] == RustTy(host, plain, fields[i], source)
  {
    seq(|fields|, i requires 0 <= i < |fields| => RustTy(host, plain, fields[i], source))
  }

  type Messages = map<string, ParsedMessage>

  // A message set, the types taken for plain, and the byte order of the host compiled for.
  datatype GeneratedRust = GeneratedRust(
    host: ByteOrder, messages: Messages, plain: set<PlainKey>, rank: map<string, nat>)
  {
    function Types(): MessageTypes {
      MessageTypes(map k <- messages :: RustTys(host, plain, messages[k].fields, messages[k].package), rank)
    }

    /**
     A message set as the generator takes it: indexed by key, with a plain set whose members
     qualify, and types of finite size. Blocks of elements without bytes are not part of this
     model.
     */
    predicate IsWellFormed() {
      && (forall k <- messages :: MessageKey(messages[k]) == k && WellNamed(messages[k]))
      && (forall k <- plain :: exists m <- messages.Values :: KeyOf(m) == k && Qualifies(m, plain))
      && Types().FiniteSize()
      && BlocksHaveBytes()
    }

    predicate BlocksHaveBytes()
      requires Types().FiniteSize()
    {
      forall k <- messages ::
        forall f <- messages[k].fields | IsBulk(host, plain, f.fieldType, messages[k].package) ::
          SizeOf(Types(), RustElemTy(f.fieldType, messages[k].package)) > 0
    }

    // `derive(Pod)` on the plain structs: none may have padding.
    predicate DeriveAccepts()
      requires Types().FiniteSize()
    {
      host.Little? ==>
        forall k <- messages | KeyOf(messages[k]) in plain :: IsPacked(Types(), Types().Fields(k))
    }
  }

  type ParsedRust = r: GeneratedRust | r.IsWellFormed() witness GeneratedRust(Little, map[], {}, map[])

  type RustSchema = r: GeneratedRust | r.IsWellFormed() && r.DeriveAccepts()
    witness GeneratedRust(Little, map[], {}, map[])

  function RustProgram(r: ParsedRust): Program {
    r.Types()
  }

  // ----- layouts without padding ------------------------------------------------------------

  // Fields of one alignment leave no padding: what the alignment check of the generator is for.
  lemma {:induction false} OneAlignmentFits(p: Program, ts: seq<Ty>, align: Boundary, offset: nat)
    requires forall i | 0 <= i < |ts| :: IsPlain(p, ts[i]) && AlignOf(p, ts[i]) == align
    requires offset % align == 0
    ensures FitsFrom(p, ts, offset) && SizeOfAll(p, ts) % align == 0
    ensures ts != [] ==> LargestAlign(p, ts) == align
    decreases ts
  {
    hide IsPlain, AlignOf, SizeOf;
    if ts != [] {
      SizeIsAligned(p, ts[0]);
      SumIsAligned(offset, SizeOf(p, ts[0]), align);
      OneAlignmentFits(p, ts[1..], align, offset + SizeOf(p, ts[0]));
      SumIsAligned(SizeOf(p, ts[0]), SizeOfAll(p, ts[1..]), align);
    }
  }

  predicate HasOneAlign(p: Program, ts: seq<Ty>) {
    forall i | 0 <= i < |ts| :: AlignOf(p, ts[i]) == AlignOf(p, ts[0])
  }

  lemma OneAlignmentIsPacked(p: Program, ts: seq<Ty>)
    requires (forall i | 0 <= i < |ts| :: IsPlain(p, ts[i])) && HasOneAlign(p, ts)
    ensures IsPacked(p, ts)
  {
    hide IsPlain, AlignOf, SizeOf;
    if ts != [] {
      OneAlignmentFits(p, ts, AlignOf(p, ts[0]), 0);
    }
  }

  // A field of a type that is not primitive; the alignment check does not look at it.
  predicate HasNestedField(m: ParsedMessage) {
    exists f <- m.fields :: PrimitiveAlign(f.fieldType.baseType).None?
  }

  // The layouts the alignment check leaves open: plain structs of mixed alignment with a nested field.
  predicate OpenLayoutsFit(r: ParsedRust) {
    forall k <- r.messages | KeyOf(r.messages[k]) in r.plain ::
      var ts := RustProgram(r).Fields(k);
      HasNestedField(r.messages[k]) && !HasOneAlign(RustProgram(r), ts) ==> IsPacked(RustProgram(r), ts)
  }

  /**
   What the alignment check guarantees: on a little-endian host the derive accepts every plain
   struct exactly when the running offsets fit in those that mix alignments through a nested
   field. In all others there is no padding.
   */
  lemma DeriveAcceptsExactly(r: ParsedRust)
    requires r.host.Little?
    ensures r.DeriveAccepts() <==> OpenLayoutsFit(r)
  {
    hide IsPacked, Qualifies, HasNestedField, HasOneAlign;
    if OpenLayoutsFit(r) {
      forall k | k in r.messages && KeyOf(r.messages[k]) in r.plain ensures IsPacked(r.Types(), r.Types().Fields(k)) {
        PlainKeyQualifies(r, k);
        PlainMessageIsPlain(r, k);
        PlainMessageIsPacked(RustProgram(r), k);
      }
    }
  }

  lemma PlainMessageIsPacked(p: Program, k: string)
    requires IsPlain(p, TMsg(k))
    ensures IsPacked(p, p.Fields(k))
  {
    hide IsPacked;
  }

  lemma PlainKeyQualifies(r: ParsedRust, k: string)
    requires k in r.messages && KeyOf(r.messages[k]) in r.plain
    ensures Qualifies(r.messages[k], r.plain)
  {
    hide Qualifies;
    PlainMessage(r, r.messages[k].package, r.messages[k].name);
  }

  // A plain message without nested fields has fields of one alignment.
  lemma UnnestedHasOneAlign(r: ParsedRust, k: string)
    requires r.host.Little? && k in r.messages && Qualifies(r.messages[k], r.plain) && !HasNestedField(r.messages[k])
    ensures HasOneAlign(RustProgram(r), RustProgram(r).Fields(k))
  {
    hide PrimitiveAlign, PrimOf, AlignOf;
    var p, fields := RustProgram(r), r.messages[k].fields;
    forall i | 0 <= i < |fields|
      ensures AlignOf(p, p.Fields(k)[i]) == PrimitiveAlign(fields[i].fieldType.baseType).value
      ensures PrimitiveAlign(fields[i].fieldType.baseType) == PrimitiveAlign(fields[0].fieldType.baseType)
    {
      assert fields[i] in fields && fields[0] in fields;
      NumbersArePlain(p, fields[i].fieldType.baseType);
      NumberFieldAlign(p, r, fields[i], r.messages[k].package);
    }
  }

  lemma NumberFieldAlign(p: Program, r: ParsedRust, f: Field, source: string)
    requires IsFieldPlain(f.fieldType, r.plain) && PrimitiveAlign(f.fieldType.baseType).Some?
    ensures AlignOf(p, RustTy(r.host, r.plain, f, source)) == PrimitiveAlign(f.fieldType.baseType).value
  {
    hide PrimitiveAlign, PrimOf, IsBulk;
    NumbersArePlain(p, f.fieldType.baseType);
  }

  // Only messages of the set are plain, and they qualify.
  lemma PlainMessage(r: ParsedRust, package: string, name: string)
    requires PlainKey(Some(package), name) in r.plain
    ensures var k := Key(package, name);
      k in r.messages && KeyOf(r.messages[k]) == PlainKey(Some(package), name) && Qualifies(r.messages[k], r.plain)
  {
    hide Qualifies;
    var m :| m in r.messages.Values && KeyOf(m) == PlainKey(Some(package), name) && Qualifies(m, r.plain);
    var k :| k in r.messages && r.messages[k] == m;
  }

  // A bare name is never found.
  lemma NoBareNames(r: ParsedRust, name: string)
    ensures PlainKey(None, name) !in r.plain
  {
  }

  lemma NumbersArePlain(p: Program, base: string)
    requires PrimitiveAlign(base).Some?
    ensures PrimOf(base).Some? && IsPlain(p, TPrim(PrimOf(base).value))
    ensures AlignOf(p, TPrim(PrimOf(base).value)) == PrimitiveAlign(base).value
  {
  }

  // What the generator takes for plain is laid out without padding where the open layouts fit.
  lemma {:induction false} ElementsArePlain(r: ParsedRust, ft: FieldType, source: string)
    requires r.host.Little? && OpenLayoutsFit(r)
    requires IsBaseTypePlain(ft.baseType, Some(PackageFor(ft, source)), r.plain)
    ensures IsPlain(RustProgram(r), RustElemTy(ft, source))
    decreases RustProgram(r).Rank(RustElemTy(ft, source)), 1
  {
    hide IsPlain, IsPacked, PrimitiveAlign, PrimOf, Qualifies, OpenLayoutsFit;
    var p := RustProgram(r);
    if PrimitiveAlign(ft.baseType).Some? {
      NumbersArePlain(p, ft.baseType);
    } else {
      PlainMessage(r, PackageFor(ft, source), ft.baseType);
      NotANumber(ft.baseType);
      PlainMessageIsPlain(r, Key(PackageFor(ft, source), ft.baseType));
    }
  }

  lemma NotANumber(base: string)
    requires PrimitiveAlign(base).None? && base !in {"bool", "string", "wstring", "char", "wchar"}
    ensures PrimOf(base).None? && base != "string"
  {
  }

  lemma {:induction false} PlainMessageIsPlain(r: ParsedRust, k: string)
    requires r.host.Little? && OpenLayoutsFit(r)
    requires k in r.messages && KeyOf(r.messages[k]) in r.plain && Qualifies(r.messages[k], r.plain)
    ensures IsPlain(RustProgram(r), TMsg(k))
    decreases RustProgram(r).RankOf(k) + 1, 0
  {
    hide IsPacked, IsBaseTypePlain, HasNestedField, HasOneAlign;
    var p := RustProgram(r);
    var ts := p.Fields(k);
    forall i | 0 <= i < |ts| ensures IsPlain(p, ts[i]) {
      RankOfField(p, ts, i);
      PlainFieldIsPlain(r, k, i);
    }
    AllPlain(p, ts);
    if HasOneAlign(p, ts) {
      OneAlignmentIsPacked(p, ts);
    } else if !HasNestedField(r.messages[k]) {
      UnnestedHasOneAlign(r, k);
    }
  }

  lemma {:induction false} PlainFieldIsPlain(r: ParsedRust, k: string, i: nat)
    requires r.host.Little? && OpenLayoutsFit(r)
    requires k in r.messages && Qualifies(r.messages[k], r.plain) && i < |r.messages[k].fields|
    ensures IsPlain(RustProgram(r), RustProgram(r).Fields(k)[i])
    decreases RustProgram(r).Rank(RustProgram(r).Fields(k)[i]), 2
  {
    hide IsPacked, IsBaseTypePlain, RustElemTy, OpenLayoutsFit, SizeOf;
    var p, f, source := RustProgram(r), r.messages[k].fields[i], r.messages[k].package;
    assert f in r.messages[k].fields;
    QualifiedReference(r, f.fieldType, source);
    assert p.Rank(RustElemTy(f.fieldType, source)) <= p.Rank(p.Fields(k)[i]);
    ElementsArePlain(r, f.fieldType, source);
  }

  // What is plain as a field is plain with the package of the message as well.
  lemma QualifiedReference(r: ParsedRust, ft: FieldType, source: string)
    requires IsFieldPlain(ft, r.plain)
    ensures IsBaseTypePlain(ft.baseType, Some(PackageFor(ft, source)), r.plain)
  {
    hide PrimitiveAlign;
    NoBareNames(r, ft.baseType);
  }

  lemma {:induction false} AllPlain(p: Program, ts: seq<Ty>)
    requires forall i | 0 <= i < |ts| :: IsPlain(p, ts[i])
    ensures ArePlain(p, ts)
    decreases ts
  {
    hide IsPlain;
    if ts != [] {
      AllPlain(p, ts[1..]);
    }
  }

  lemma FieldIsTraitType(r: RustSchema, k: string, i: nat)
    requires k in r.messages && i < |r.messages[k].fields|
    ensures IsTraitType(RustProgram(r), RustProgram(r).Fields(k)[i])
  {
    hide IsPacked, IsPlain, IsBaseTypePlain, PrimOf, SizeOf, RustElemTy, OpenLayoutsFit;
    var f, source := r.messages[k].fields[i], r.messages[k].package;
    assert f in r.messages[k].fields;
    ElementIsTraitType(RustProgram(r), f.fieldType, source);
    if IsBulk(r.host, r.plain, f.fieldType, source) {
      OpenLayoutsOfSchema(r);
      ElementsArePlain(r, f.fieldType, source);
    }
  }

  lemma OpenLayoutsOfSchema(r: RustSchema)
    ensures r.host.Little? ==> OpenLayoutsFit(r)
  {
    hide IsPacked, HasNestedField, HasOneAlign;
  }

  // The emitted impls use the trait types only, blocks included.
  lemma RustTypesAreTraitTypes(r: RustSchema)
    ensures IsTraitProgram(RustProgram(r))
  {
    hide IsTraitType, RustTys;
    var p := RustProgram(r);
    forall k | k in p.types ensures forall f <- p.types[k] :: IsTraitType(p, f) {
      forall i | 0 <= i < |p.types[k]| ensures IsTraitType(p, p.types[k][i]) {
        FieldIsTraitType(r, k, i);
      }
    }
  }

  lemma ElementIsTraitType(p: Program, ft: FieldType, source: string)
    ensures IsTraitType(p, RustElemTy(ft, source))
  {
  }

  lemma SimpleElement(ft: FieldType, source: string)
    ensures var e := RustElemTy(ft, source); (e.TPrim? || e.TString? || e.TMsg?) && Looped(e) == e
  {
  }

  // Only bulk fields can fail their check, and their elements are plain.
  lemma BulkField(order: ByteOrder, r: RustSchema, k: string, f: Field)
    requires k in r.messages && f in r.messages[k].fields
    requires !BlocksFit(order, RustProgram(r), RustTy(r.host, r.plain, f, r.messages[k].package))
    ensures var t := RustTy(r.host, r.plain, f, r.messages[k].package);
      (t.TBulkSeq? || t.TBulkArray?) && IsBlockElement(RustProgram(r), t.elem)
  {
    hide IsPlain, FitsEverywhere, FitsBehindLength, RustElemTy, SizeOf, Qualifies, IsBaseTypePlain, IsPacked;
    hide OpenLayoutsFit;
    SimpleElement(f.fieldType, r.messages[k].package);
    if IsBulk(r.host, r.plain, f.fieldType, r.messages[k].package) {
      OpenLayoutsOfSchema(r);
      ElementsArePlain(r, f.fieldType, r.messages[k].package);
    }
  }

  /**
   The generated impls against serde, in either byte order: every field of every message is
   written alike on both paths, at every position and for all values, exactly when all blocks
   of the schema fit the order.
   */
  lemma SerdeAgreesExactly(order: ByteOrder, r: RustSchema)
    ensures AllBlocksFit(order, RustProgram(r)) <==>
      forall k <- r.messages :: forall f <- r.messages[k].fields :: PathsAgree(order, r, f, r.messages[k].package)
  {
    hide PathsAgree, BlocksFit, RustTy, GeneratedRust.IsWellFormed, GeneratedRust.DeriveAccepts;
    var p := RustProgram(r);
    if AllBlocksFit(order, p) {
      forall k, f | k in r.messages && f in r.messages[k].fields
        ensures PathsAgree(order, r, f, r.messages[k].package)
      {
        FittingFieldAgrees(order, r, k, f);
      }
    } else {
      var k :| k in p.types && exists t <- p.types[k] :: !BlocksFit(order, p, t);
      var i :| 0 <= i < |p.types[k]| && !BlocksFit(order, p, p.types[k][i]);
      var f := r.messages[k].fields[i];
      assert f in r.messages[k].fields;
      MisfitFieldDiffers(order, r, k, f);
    }
  }

  // One field by itself, at every position and for all its values.
  ghost predicate PathsAgree(order: ByteOrder, r: RustSchema, f: Field, source: string) {
    forall pos: nat, v | HasType(RustProgram(r), v, RustTy(r.host, r.plain, f, source)) ::
      SameBytes(order, RustProgram(r), v, RustTy(r.host, r.plain, f, source), pos)
  }

  lemma FittingFieldAgrees(order: ByteOrder, r: RustSchema, k: string, f: Field)
    requires AllBlocksFit(order, RustProgram(r)) && k in r.messages && f in r.messages[k].fields
    ensures PathsAgree(order, r, f, r.messages[k].package)
  {
    hide HasType, RustTy, BlocksFit, SameBytes, GeneratedRust.IsWellFormed, GeneratedRust.DeriveAccepts;
    var p, t := RustProgram(r), RustTy(r.host, r.plain, f, r.messages[k].package);
    var i :| 0 <= i < |r.messages[k].fields| && r.messages[k].fields[i] == f;
    assert t == p.types[k][i] && t in p.types[k];
    forall pos: nat, v | HasType(p, v, t) ensures SameBytes(order, p, v, t, pos) {
      BlocksAreLoops(order, p, v, t, pos);
    }
  }

  lemma MisfitFieldDiffers(order: ByteOrder, r: RustSchema, k: string, f: Field)
    requires k in r.messages && f in r.messages[k].fields
    requires !BlocksFit(order, RustProgram(r), RustTy(r.host, r.plain, f, r.messages[k].package))
    ensures !PathsAgree(order, r, f, r.messages[k].package)
  {
    hide HasType, RustTy, BlocksFit, SameBytes, IsBlockElement, GeneratedRust.IsWellFormed, GeneratedRust.DeriveAccepts;
    BulkField(order, r, k, f);
    MisplacedBulkDiffers(order, RustProgram(r), RustTy(r.host, r.plain, f, r.messages[k].package));
  }

  // ----- a plain type with a misplaced block ---------------------------------------------------

  function NumberField(name: string, base: string, arrayType: ArrayType): Field {
    Field(name, FieldType(base, None, arrayType, None))
  }

  const UUID: ParsedMessage :=
    ParsedMessage("unique_identifier_msgs", "UUID", [NumberField("uuid", "uint8", Fixed(16))])

  const TIME_MESSAGE: ParsedMessage :=
    ParsedMessage(
      "builtin_interfaces", "Time", [NumberField("sec", "int32", Single), NumberField("nanosec", "uint32", Single)])

  const GOAL_INFO: ParsedMessage :=
    ParsedMessage("action_msgs", "GoalInfo",
                  [Field("goal_id", FieldType("UUID", Some("unique_identifier_msgs"), Single, None)),
                   Field("stamp", FieldType("Time", Some("builtin_interfaces"), Single, None))])

  // The generator takes it for plain: only its direct primitive fields are compared, and it has none.
  lemma GoalInfoIsPlain(messages: seq<ParsedMessage>, plain: set<PlainKey>)
    requires UUID in messages && TIME_MESSAGE in messages && GOAL_INFO in messages && IsClosed(messages, plain)
    ensures KeyOf(GOAL_INFO) in plain
  {
    hide IsClosed, Qualifies;
    NumbersQualify(plain);
    Admits(messages, plain, UUID);
    Admits(messages, plain, TIME_MESSAGE);
    GoalInfoQualifies(plain);
    Admits(messages, plain, GOAL_INFO);
  }

  lemma NumbersQualify(plain: set<PlainKey>)
    ensures Qualifies(UUID, plain) && Qualifies(TIME_MESSAGE, plain)
  {
  }

  lemma GoalInfoQualifies(plain: set<PlainKey>)
    requires KeyOf(UUID) in plain && KeyOf(TIME_MESSAGE) in plain
    ensures Qualifies(GOAL_INFO, plain)
  {
  }

  lemma Admits(messages: seq<ParsedMessage>, plain: set<PlainKey>, m: ParsedMessage)
    requires IsClosed(messages, plain) && m in messages && Qualifies(m, plain)
    ensures KeyOf(m) in plain
  {
  }

  /**
   Its first number is an octet and its alignment is four: a fixed array of two that starts at
   position 1 is written four bytes on by the bulk copy and at once by a loop, while behind a
   length prefix it makes no difference.
   */
  lemma GoalInfoIsMisplaced(p: Program)
    requires p.Fields("unique_identifier_msgs/UUID") == [TBulkArray(16, TPrim(U8))]
    requires p.Fields("builtin_interfaces/Time") == [TPrim(I32), TPrim(U32)]
    requires p.Fields("action_msgs/GoalInfo") == [TMsg("unique_identifier_msgs/UUID"), TMsg("builtin_interfaces/Time")]
    ensures var t := TMsg("action_msgs/GoalInfo");
      && IsBlockElement(p, t) && FirstAlign(p, t) == 1 && AlignOf(p, t) == 4
      && !FitsEverywhere(Little, p, t, 2) && FitsBehindLength(Little, p, t)
      && !BlockFits(p, t, 2, 1)
  {
    hide IsPlain, SizeOf, AlignOf, FirstAlign, FitsBehindLength, FitsEverywhere;
    UuidLayout(p);
    TimeLayout(p);
    TwoFields(p, "action_msgs/GoalInfo", TMsg("unique_identifier_msgs/UUID"), TMsg("builtin_interfaces/Time"));
    Misfit(p, TMsg("action_msgs/GoalInfo"));
  }

  lemma Misfit(p: Program, t: Ty)
    requires IsPlain(p, t) && SizeOf(p, t) == 24 && FirstAlign(p, t) == 1 && AlignOf(p, t) == 4
    ensures !FitsEverywhere(Little, p, t, 2) && FitsBehindLength(Little, p, t) && !BlockFits(p, t, 2, 1)
  {
    hide IsPlain, SizeOf, AlignOf, FirstAlign;
  }

  lemma UuidLayout(p: Program)
    requires p.Fields("unique_identifier_msgs/UUID") == [TBulkArray(16, TPrim(U8))]
    ensures var t := TMsg("unique_identifier_msgs/UUID");
      IsPlain(p, t) && SizeOf(p, t) == 16 && AlignOf(p, t) == 1 && FirstAlign(p, t) == 1
  {
    var octets := TBulkArray(16, TPrim(U8));
    SizeOfSliceIsAProduct(p, TPrim(U8), 16);
    assert IsPlain(p, octets) && SizeOf(p, octets) == 16 && AlignOf(p, octets) == 1 && FirstAlign(p, octets) == 1;
    OneField(p, "unique_identifier_msgs/UUID", octets);
  }

  lemma TimeLayout(p: Program)
    requires p.Fields("builtin_interfaces/Time") == [TPrim(I32), TPrim(U32)]
    ensures var t := TMsg("builtin_interfaces/Time");
      IsPlain(p, t) && SizeOf(p, t) == 8 && AlignOf(p, t) == 4
  {
    TwoFields(p, "builtin_interfaces/Time", TPrim(I32), TPrim(U32));
  }

  lemma OneField(p: Program, name: string, a: Ty)
    requires p.Fields(name) == [a] && IsPlain(p, a) && SizeOf(p, a) % AlignOf(p, a) == 0
    ensures var t := TMsg(name);
      IsPlain(p, t) && SizeOf(p, t) == SizeOf(p, a)
      && AlignOf(p, t) == AlignOf(p, a) && FirstAlign(p, t) == FirstAlign(p, a)
  {
    Fields(p, [a], []);
  }

  lemma TwoFields(p: Program, name: string, a: Ty, b: Ty)
    requires p.Fields(name) == [a, b] && IsPlain(p, a) && IsPlain(p, b)
    requires SizeOf(p, a) % AlignOf(p, b) == 0 && AlignOf(p, a) <= AlignOf(p, b)
    requires (SizeOf(p, a) + SizeOf(p, b)) % AlignOf(p, b) == 0 && FirstAlign(p, a) > 0
    ensures var t := TMsg(name);
      IsPlain(p, t) && SizeOf(p, t) == SizeOf(p, a) + SizeOf(p, b) && AlignOf(p, t) == AlignOf(p, b)
      && FirstAlign(p, t) == FirstAlign(p, a)
  {
    Fields(p, [a, b], [b]);
    Fields(p, [b], []);
  }

  // ----- a plain type with padding ---------------------------------------------------------------

  const STAMPED: ParsedMessage :=
    ParsedMessage("p", "Stamped",
                  [Field("stamp", FieldType("Time", Some("builtin_interfaces"), Single, None)),
                   NumberField("level", "uint8", Single)])

  /**
   It qualifies as soon as Time is plain, but its nine bytes do not fill its alignment of four:
   the derive rejects the struct, and with it the package.
   */
  lemma StampedHasPadding(p: Program, plain: set<PlainKey>)
    requires KeyOf(TIME_MESSAGE) in plain && p.Fields("builtin_interfaces/Time") == [TPrim(I32), TPrim(U32)]
    ensures var ts := RustTys(Little, plain, STAMPED.fields, STAMPED.package);
      Qualifies(STAMPED, plain) && SizeOfAll(p, ts) == 9 && LargestAlign(p, ts) == 4 && !IsPacked(p, ts)
  {
    hide IsPlain, SizeOf, AlignOf;
    StampedQualifies(plain);
    StampedTypes(plain);
    var time, octet := TMsg("builtin_interfaces/Time"), TPrim(U8);
    TimeLayout(p);
    OctetLayout(p);
    Fields(p, [time, octet], [octet]);
    Fields(p, [octet], []);
  }

  lemma OctetLayout(p: Program)
    ensures SizeOf(p, TPrim(U8)) == 1 && AlignOf(p, TPrim(U8)) == 1 && IsPlain(p, TPrim(U8))
  {
  }

  lemma StampedQualifies(plain: set<PlainKey>)
    requires KeyOf(TIME_MESSAGE) in plain
    ensures Qualifies(STAMPED, plain)
  {
  }

  lemma StampedTypes(plain: set<PlainKey>)
    ensures RustTys(Little, plain, STAMPED.fields, STAMPED.package) == [TMsg("builtin_interfaces/Time"), TPrim(U8)]
  {
    assert Key("builtin_interfaces", "Time") == "builtin_interfaces/Time";
  }

  // The layout of a field list from its first field and the rest.
  lemma Fields(p: Program, ts: seq<Ty>, rest: seq<Ty>)
    requires ts != [] && ts[1..] == rest
    ensures ArePlain(p, ts) == (IsPlain(p, ts[0]) && ArePlain(p, rest))
    ensures SizeOfAll(p, ts) == SizeOf(p, ts[0]) + SizeOfAll(p, rest)
    ensures LargestAlign(p, ts) ==
      if AlignOf(p, ts[0]) < LargestAlign(p, rest) then LargestAlign(p, rest) else AlignOf(p, ts[0])
    ensures FirstAlignOfAll(p, ts) ==
      if FirstAlign(p, ts[0]) > 0 then FirstAlign(p, ts[0]) else FirstAlignOfAll(p, rest)
    ensures forall o: nat ::
      FitsFrom(p, ts, o) == (o % AlignOf(p, ts[0]) == 0 && FitsFrom(p, rest, o + SizeOf(p, ts[0])))
    ensures ArePlain(p, []) && SizeOfAll(p, []) == 0 && LargestAlign(p, []) == 1 && FirstAlignOfAll(p, []) == 0
    ensures forall o: nat :: FitsFrom(p, [], o)
  {
  }

  // ----- from a list of messages to a schema -------------------------------------------------------

  function Index(messages: seq<ParsedMessage>): Messages {
    if messages == [] then map[] else Index(messages[1..])[MessageKey(messages[0]) := messages[0]]
  }

  predicate HaveDistinctKeys(messages: seq<ParsedMessage>) {
    forall i, j | 0 <= i < j < |messages| :: MessageKey(messages[i]) != MessageKey(messages[j])
  }

  lemma {:induction false} IndexHoldsAll(messages: seq<ParsedMessage>)
    requires HaveDistinctKeys(messages)
    ensures forall m <- messages :: MessageKey(m) in Index(messages) && Index(messages)[MessageKey(m)] == m
    ensures forall k <- Index(messages) :: Index(messages)[k] in messages && MessageKey(Index(messages)[k]) == k
  {
    hide MessageKey;
    if messages != [] {
      IndexHoldsAll(messages[1..]);
      assert forall i | 0 < i < |messages| :: messages[i] == messages[1..][i - 1];
    }
  }

  /**
   The generator on a list of messages: the plain set it computes is a plain set as schemas
   have them, and no closed set is smaller.
   */
  method GenerateRust(host: ByteOrder, messages: seq<ParsedMessage>, rank: map<string, nat>)
    returns (r: GeneratedRust)
    requires HaveDistinctKeys(messages)
    ensures r.host == host && r.messages == Index(messages) && r.rank == rank
    ensures forall k <- r.messages :: MessageKey(r.messages[k]) == k
    ensures forall k <- r.plain :: exists m <- r.messages.Values :: KeyOf(m) == k && Qualifies(m, r.plain)
    ensures IsClosed(messages, r.plain)
    ensures forall other :: IsClosed(messages, other) ==> r.plain <= other
  {
    hide Qualifies, IsClosed, MessageKey;
    var plain := ComputePlainTypes(messages);
    IndexHoldsAll(messages);
    forall k | k in plain ensures exists m <- Index(messages).Values :: KeyOf(m) == k && Qualifies(m, plain) {
      var m :| m in messages && KeyOf(m) == k && Qualifies(m, plain);
      assert Index(messages)[MessageKey(m)] in Index(messages).Values;
    }
    r := GeneratedRust(host, Index(messages), plain, rank);
  }
}
