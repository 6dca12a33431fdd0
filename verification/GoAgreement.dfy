/**
 Go and Rust on the same messages: the body bytes of the emitted Go encoder
 against those of the emitted Rust impls, and the round trips within and across
 the languages.
 */
module GoAgreement {
  import opened CdrWire
  import opened CdrLayout
  import opened CdrTypes
  import opened CdrRoundTrip
  import opened CdrBulk
  import opened CdrOrders
  import opened CdrBlocks
  import opened CdrBuffers
  import opened CdrPrimitives
  import opened CdrTraits
  import opened GoGuards
  import opened GoSchema
  import opened GoPack
  import opened GoUnpack
  import opened RustGenerator
  import opened JsonManifest
  import Parsed = TypeDescriptions

  // ----- one message set, two programs ----------------------------------------------

  // The names of the manifest that Rust has no types for do not occur.
  predicate HasNoTimeNames(messages: Messages) {
    forall k <- messages :: forall f <- messages[k].fields :: !IsTimeName(f.fieldType.baseType)
  }

  function GoMessages(r: RustSchema): GeneratedTypes {
    Manifest(r.messages, r.rank)
  }

  // What a field must be for both languages to write the same bytes everywhere.
  predicate IsFieldSafe(r: RustSchema, f: Parsed.Field, source: string) {
    && !(f.fieldType.baseType == "string" && f.fieldType.arrayType.Fixed?)
    && BlocksFit(Little, RustProgram(r), RustTy(r.host, r.plain, f, source))
  }

  // The schema check.
  predicate IsSafe(r: RustSchema) {
    forall k <- r.messages :: forall f <- r.messages[k].fields :: IsFieldSafe(r, f, r.messages[k].package)
  }

  lemma SameElement(ft: Parsed.FieldType, source: string)
    requires !IsTimeName(ft.baseType)
    ensures ElemTy(ConvertKind(ft, source)) == Looped(RustElemTy(ft, source))
    ensures ConvertKind(ft, source) == String <==> ft.baseType == "string"
  {
  }

  // Without fixed arrays of strings a field has the same type on both sides, blocks aside.
  lemma SameField(r: RustSchema, f: Parsed.Field, source: string)
    requires !IsTimeName(f.fieldType.baseType)
    requires !(f.fieldType.baseType == "string" && f.fieldType.arrayType.Fixed?)
    ensures GoTy(ConvertField(f, source)) == Looped(RustTy(r.host, r.plain, f, source))
    ensures !IsFixedStringArray(ConvertField(f, source))
  {
    hide ConvertKind, RustElemTy, IsTimeName, IsBulk;
    SameElement(f.fieldType, source);
  }

  lemma SameFields(r: RustSchema, m: Parsed.ParsedMessage)
    requires forall f <- m.fields :: !IsTimeName(f.fieldType.baseType)
    requires forall f <- m.fields :: !(f.fieldType.baseType == "string" && f.fieldType.arrayType.Fixed?)
    ensures GoTys(ConvertFields(m)) == LoopedAll(RustTys(r.host, r.plain, m.fields, m.package))
  {
    hide ConvertField, RustTy, GoTy, IsTimeName;
    forall i | 0 <= i < |m.fields|
      ensures GoTy(ConvertField(m.fields[i], m.package)) == Looped(RustTy(r.host, r.plain, m.fields[i], m.package))
    {
      assert m.fields[i] in m.fields;
      SameField(r, m.fields[i], m.package);
    }
  }

  predicate HasNoFixedStringArrays(messages: Messages) {
    forall k <- messages :: forall f <- messages[k].fields ::
      !(f.fieldType.baseType == "string" && f.fieldType.arrayType.Fixed?)
  }

  // Then the Go program is the Rust program without blocks.
  lemma SameProgram(r: RustSchema)
    requires HasNoTimeNames(r.messages) && HasNoFixedStringArrays(r.messages)
    ensures GoMessages(r).GoTypes() == LoopedProgram(RustProgram(r)) && GoMessages(r).Compiles()
  {
    hide LoopedAll, GoTys, RustTys, ConvertFields, IsTimeName, GeneratedRust.IsWellFormed;
    hide GeneratedRust.DeriveAccepts, MessageTypes.FiniteSize;
    var p := RustProgram(r);
    forall k | k in r.messages ensures GoTys(ConvertFields(r.messages[k])) == LoopedAll(p.types[k]) {
      SameFields(r, r.messages[k]);
    }
    assert GoMessages(r).GoTypes().types == LoopedTypes(p).types;
    LoopedProgramIsLoopedTypes(p);
  }

  lemma LoopedProgramIsLoopedTypes(p: Program)
    ensures LoopedProgram(p) == LoopedTypes(p)
  {
  }

  // ----- the Go program of a message set --------------------------------------------

  lemma SameRank(r: RustSchema, f: Parsed.Field, source: string)
    requires !IsTimeName(f.fieldType.baseType)
    ensures GoMessages(r).GoTypes().Rank(GoTy(ConvertField(f, source)))
         == RustProgram(r).Rank(RustTy(r.host, r.plain, f, source))
  {
    hide ConvertKind, RustElemTy, IsTimeName, IsBulk, GeneratedRust.IsWellFormed, GeneratedRust.DeriveAccepts;
    SameElement(f.fieldType, source);
    SimpleElement(f.fieldType, source);
    ElementRank(r, RustElemTy(f.fieldType, source));
  }

  lemma ElementRank(r: RustSchema, t: Ty)
    requires t.TPrim? || t.TString? || t.TMsg?
    ensures GoMessages(r).GoTypes().Rank(t) == RustProgram(r).Rank(t)
  {
    hide GeneratedRust.IsWellFormed, GeneratedRust.DeriveAccepts;
  }

  lemma {:induction false} SameRanks(r: RustSchema, m: Parsed.ParsedMessage, i: nat)
    requires i <= |m.fields| && forall f <- m.fields :: !IsTimeName(f.fieldType.baseType)
    ensures GoMessages(r).GoTypes().RankAll(GoTys(ConvertFields(m))[i..])
         == RustProgram(r).RankAll(RustTys(r.host, r.plain, m.fields, m.package)[i..])
    decreases |m.fields| - i
  {
    hide ConvertField, RustTy, GoTy, IsTimeName, GeneratedRust.IsWellFormed;
    hide GeneratedRust.DeriveAccepts, MessageTypes.Rank;
    if i < |m.fields| {
      assert m.fields[i] in m.fields;
      SameRank(r, m.fields[i], m.package);
      SameRanks(r, m, i + 1);
      var a, b := GoTys(ConvertFields(m)), RustTys(r.host, r.plain, m.fields, m.package);
      assert a[i..][1..] == a[i + 1..] && b[i..][1..] == b[i + 1..];
    }
  }

  function GoSchemaOf(r: RustSchema): Schema
    requires HasNoTimeNames(r.messages)
  {
    GoTypesAreFinite(r);
    GoMessages(r)
  }

  lemma GoTypesAreFinite(r: RustSchema)
    requires HasNoTimeNames(r.messages)
    ensures GoMessages(r).Compiles()
  {
    hide GoTys, RustTys, ConvertFields, IsTimeName, MessageTypes.RankAll;
    var p := RustProgram(r);
    forall k | k in r.messages
      ensures GoMessages(r).GoTypes().RankAll(GoTys(ConvertFields(r.messages[k]))) <= p.RankOf(k)
    {
      var m := r.messages[k];
      SameRanks(r, m, 0);
      assert GoTys(ConvertFields(m))[0..] == GoTys(ConvertFields(m));
      assert RustTys(r.host, r.plain, m.fields, m.package)[0..] == p.types[k];
    }
  }

  // ----- agreement ----------------------------------------------------------------------

  lemma SafeParts(r: RustSchema)
    requires IsSafe(r)
    ensures HasNoFixedStringArrays(r.messages) && AllBlocksFit(Little, RustProgram(r))
  {
    hide BlocksFit, RustTy, GeneratedRust.IsWellFormed, GeneratedRust.DeriveAccepts;
    var p := RustProgram(r);
    forall k | k in p.types ensures forall f <- p.types[k] :: BlocksFit(Little, p, f) {
      forall i | 0 <= i < |p.types[k]| ensures BlocksFit(Little, p, p.types[k][i]) {
        assert r.messages[k].fields[i] in r.messages[k].fields;
      }
    }
  }

  /**
   On a safe schema, for every message, all its values and every position: the body the
   emitted Go encoder appends is the little-endian body of the emitted Rust impl, although
   the one loops over elements that the other copies in bulk.
   */
  lemma EncodersAgree(r: RustSchema, k: string, vs: seq<Val>, pos: nat)
    requires HasNoTimeNames(r.messages) && IsSafe(r) && k in r.messages
    requires HaveTypes(RustProgram(r), vs, RustProgram(r).Fields(k))
    ensures Encode(pos, FlatFields(GoWire(GoSchemaOf(r)), vs, GoTys(ConvertFields(r.messages[k]))))
         == Encode(pos, FlatFields(Wire(Little, RustProgram(r)), vs, RustProgram(r).Fields(k)))
    ensures HaveTypes(GoSchemaOf(r).GoTypes(), vs, GoTys(ConvertFields(r.messages[k])))
  {
    hide Encode, FlatFields, HaveTypes, ConvertFields, GoTys, RustTys, AllBlocksFit, BlocksFit;
    hide IsSafe, HasNoTimeNames, GeneratedRust.IsWellFormed, GeneratedRust.DeriveAccepts;
    var p := RustProgram(r);
    SafeParts(r);
    SameProgram(r);
    NoTimesInMessage(r, k);
    SameFields(r, r.messages[k]);
    ProgramFields(Little, p, k);
    FieldsAreLoops(Little, p, vs, p.Fields(k), pos);
    LoopedFields(p, vs, p.Fields(k));
  }

  lemma NoTimesInMessage(r: RustSchema, k: string)
    requires HasNoTimeNames(r.messages) && HasNoFixedStringArrays(r.messages) && k in r.messages
    ensures forall f <- r.messages[k].fields :: !IsTimeName(f.fieldType.baseType)
    ensures forall f <- r.messages[k].fields :: !(f.fieldType.baseType == "string" && f.fieldType.arrayType.Fixed?)
  {
    hide GeneratedRust.IsWellFormed, GeneratedRust.DeriveAccepts;
  }

  // The body of a message as the Rust impl writes it at a position.
  function Body(r: RustSchema, k: string, vs: seq<Val>, pos: nat): Bytes {
    Encode(pos, FlatFields(Wire(Little, RustProgram(r)), vs, RustProgram(r).Fields(k)))
  }

  method PackMessage(
    r: RustSchema, k: string, vs: seq<Val>, buf0: Bytes, offset0: nat) returns (buf: Bytes, offset: nat)
    requires HasNoTimeNames(r.messages) && IsSafe(r) && k in r.messages
    requires HaveTypes(RustProgram(r), vs, RustProgram(r).Fields(k))
    ensures buf == buf0 + Body(r, k, vs, offset0) && offset == offset0 + |Body(r, k, vs, offset0)|
  {
    hide Encode, End, HaveTypes, FlatFields, ConvertFields, GoTys, RustTys, IsSafe;
    hide HasNoTimeNames, GeneratedRust.IsWellFormed, GeneratedRust.DeriveAccepts;
    EncodersAgree(r, k, vs, offset0);
    buf, offset := PackToRawAt(GoSchemaOf(r), ConvertFields(r.messages[k]), vs, buf0, offset0);
  }

  method WriteMessage(r: RustSchema, k: string, vs: seq<Val>, w: CdrWriter)
    requires w.Valid() && w.wire == Wire(Little, RustProgram(r)) && k in r.messages
    requires HaveTypes(RustProgram(r), vs, RustProgram(r).Fields(k))
    modifies w`buffer
    ensures w.Valid() && w.Contents() == old(w.Contents()) + Body(r, k, vs, old(w.Position()))
  {
    hide Encode, End, HaveTypes, HasType, FlatFields, RustTys, GeneratedRust.IsWellFormed;
    hide GeneratedRust.DeriveAccepts, IsTraitProgram, RustProgram;
    RustTypesAreTraitTypes(r);
    MessageValue(RustProgram(r), k, vs);
    CdrSerialize(w, VList(vs), TMsg(k));
  }

  lemma MessageValue(p: Program, k: string, vs: seq<Val>)
    requires HaveTypes(p, vs, p.Fields(k))
    ensures HasType(p, VList(vs), TMsg(k)) && IsTraitType(p, TMsg(k))
    ensures forall order :: Flat(Wire(order, p), VList(vs), TMsg(k)) == FlatFields(Wire(order, p), vs, p.Fields(k))
  {
  }

  /**
   Both encoders run on one message from the same position inside larger messages: they
   append the same bytes, and the Go offset is the position of the Rust writer.
   */
  method PackBothWays(r: RustSchema, k: string, vs: seq<Val>, buf0: Bytes, offset0: nat, w: CdrWriter)
    returns (buf: Bytes, offset: nat)
    requires HasNoTimeNames(r.messages) && IsSafe(r) && k in r.messages
    requires HaveTypes(RustProgram(r), vs, RustProgram(r).Fields(k))
    requires w.Valid() && w.wire == Wire(Little, RustProgram(r)) && w.Position() == offset0
    modifies w`buffer
    ensures w.Valid() && w.Position() == offset && |buf0| <= |buf| && buf[..|buf0|] == buf0
    ensures w.Contents() == old(w.Contents()) + buf[|buf0|..]
  {
    hide Body, HaveTypes, RustTys, IsSafe, HasNoTimeNames, GeneratedRust.IsWellFormed;
    hide GeneratedRust.DeriveAccepts, RustProgram;
    buf, offset := PackMessage(r, k, vs, buf0, offset0);
    WriteMessage(r, k, vs, w);
  }

  // The public entries: header and body in Go, the same body in Rust.
  method SerializeBothWays(r: RustSchema, k: string, vs: seq<Val>) returns (go: Bytes, rust: Bytes)
    requires HasNoTimeNames(r.messages) && IsSafe(r) && k in r.messages
    requires HaveTypes(RustProgram(r), vs, RustProgram(r).Fields(k))
    ensures go == [0x00, 0x01, 0x00, 0x00] + rust && rust == Body(r, k, vs, 0)
  {
    hide Encode, End, HaveTypes, HasType, FlatFields, ConvertFields, GoTys, RustTys, IsSafe, HasNoTimeNames;
    hide GeneratedRust.IsWellFormed, GeneratedRust.DeriveAccepts, IsTraitProgram;
    EncodersAgree(r, k, vs, 0);
    RustTypesAreTraitTypes(r);
    go := SerializeCDR(GoSchemaOf(r), ConvertFields(r.messages[k]), vs);
    MessageValue(RustProgram(r), k, vs);
    rust := CdrToVec(Wire(Little, RustProgram(r)), VList(vs), TMsg(k));
  }

  // ----- the check is exact ----------------------------------------------------------------

  // One field by itself, at every position and for all its values.
  ghost predicate FieldAgrees(r: RustSchema, f: Parsed.Field, source: string)
    requires HasNoTimeNames(r.messages)
  {
    forall pos: nat, v | HasType(RustProgram(r), v, RustTy(r.host, r.plain, f, source)) ::
      Encode(pos, Flat(GoWire(GoSchemaOf(r)), v, GoTy(ConvertField(f, source))))
      == Encode(pos, Flat(Wire(Little, RustProgram(r)), v, RustTy(r.host, r.plain, f, source)))
  }

  /**
   The check is exact for every schema: both languages write the same bytes for every field
   of every message, at every position and for all values, if and only if it passes.
   */
  lemma SchemaAgreesExactly(r: RustSchema)
    requires HasNoTimeNames(r.messages)
    ensures IsSafe(r) <==>
      forall k <- r.messages :: forall f <- r.messages[k].fields :: FieldAgrees(r, f, r.messages[k].package)
  {
    hide FieldAgrees, IsFieldSafe, HasNoTimeNames, GeneratedRust.IsWellFormed, GeneratedRust.DeriveAccepts;
    if IsSafe(r) {
      forall k, f | k in r.messages && f in r.messages[k].fields ensures FieldAgrees(r, f, r.messages[k].package) {
        SafeFieldAgrees(r, k, f);
      }
    } else {
      var k :| k in r.messages && exists f <- r.messages[k].fields :: !IsFieldSafe(r, f, r.messages[k].package);
      var f :| f in r.messages[k].fields && !IsFieldSafe(r, f, r.messages[k].package);
      SomeFieldDiffers(r, k, f);
    }
  }

  lemma SafeFieldAgrees(r: RustSchema, k: string, f: Parsed.Field)
    requires HasNoTimeNames(r.messages) && IsSafe(r) && k in r.messages && f in r.messages[k].fields
    ensures FieldAgrees(r, f, r.messages[k].package)
  {
    hide Encode, HasType, Flat, ConvertField, GoTy, RustTy, BlocksFit, GeneratedRust.IsWellFormed;
    hide GeneratedRust.DeriveAccepts, AllBlocksFit;
    var p, source := RustProgram(r), r.messages[k].package;
    SafeParts(r);
    SameProgram(r);
    SameField(r, f, source);
    forall pos: nat, v | HasType(p, v, RustTy(r.host, r.plain, f, source))
      ensures Encode(pos, Flat(GoWire(GoSchemaOf(r)), v, GoTy(ConvertField(f, source))))
           == Encode(pos, Flat(Wire(Little, p), v, RustTy(r.host, r.plain, f, source)))
    {
      BlocksAreLoops(Little, p, v, RustTy(r.host, r.plain, f, source), pos);
    }
  }

  lemma SomeFieldDiffers(r: RustSchema, k: string, f: Parsed.Field)
    requires HasNoTimeNames(r.messages) && k in r.messages && f in r.messages[k].fields
    requires !IsFieldSafe(r, f, r.messages[k].package)
    ensures exists k <- r.messages :: exists f <- r.messages[k].fields :: !FieldAgrees(r, f, r.messages[k].package)
  {
    hide FieldAgrees, BlocksFit, HasNoTimeNames, GeneratedRust.IsWellFormed, GeneratedRust.DeriveAccepts, RustTy;
    if HasNoFixedStringArrays(r.messages) {
      MisplacedFieldDiffers(r, k, f);
    } else {
      var l :| l in r.messages
        && exists g <- r.messages[l].fields :: g.fieldType.baseType == "string" && g.fieldType.arrayType.Fixed?;
      var g :| g in r.messages[l].fields && g.fieldType.baseType == "string" && g.fieldType.arrayType.Fixed?;
      StringArrayDiffers(r, l, g);
    }
  }

  lemma MisplacedFieldDiffers(r: RustSchema, k: string, f: Parsed.Field)
    requires HasNoTimeNames(r.messages) && k in r.messages && f in r.messages[k].fields
    requires HasNoFixedStringArrays(r.messages)
    requires !BlocksFit(Little, RustProgram(r), RustTy(r.host, r.plain, f, r.messages[k].package))
    ensures !FieldAgrees(r, f, r.messages[k].package)
  {
    hide Encode, HasType, Flat, ConvertField, GoTy, RustTy, BlocksFit, LoopedProgram, Looped;
    hide IsBlockElement, GeneratedRust.IsWellFormed, GeneratedRust.DeriveAccepts;
    var p, source := RustProgram(r), r.messages[k].package;
    SameProgram(r);
    SameField(r, f, source);
    BulkField(Little, r, k, f);
    MisplacedBulkDiffers(Little, p, RustTy(r.host, r.plain, f, source));
  }

  // Go writes a length in front, Rust does not: n empty strings are enough to see it.
  lemma StringArrayDiffers(r: RustSchema, k: string, f: Parsed.Field)
    requires HasNoTimeNames(r.messages) && k in r.messages && f in r.messages[k].fields
    requires f.fieldType.baseType == "string" && f.fieldType.arrayType.Fixed?
    ensures !FieldAgrees(r, f, r.messages[k].package)
  {
    hide Encode, FlatList, GeneratedRust.IsWellFormed, GeneratedRust.DeriveAccepts, HasNoTimeNames;
    var n, source := f.fieldType.arrayType.size, r.messages[k].package;
    var g, w := GoWire(GoSchemaOf(r)), Wire(Little, RustProgram(r));
    var items := EmptyStrings(RustProgram(r), n);
    var v := VList(items);
    assert RustTy(r.host, r.plain, f, source) == TArray(n, TString) && GoTy(ConvertField(f, source)) == TSeq(TString);
    assert HasType(RustProgram(r), v, TArray(n, TString));
    LengthMovesStrings(g, w, v, n);
  }

  lemma EmptyStrings(p: Program, n: nat) returns (items: seq<Val>)
    ensures |items| == n && AllHaveType(p, items, TString) && forall i | 0 <= i < n :: items[i].VString?
  {
    items := seq(n, _ => VString([]));
    assert forall i | 0 <= i < n :: items[i] == VString([]);
  }

  lemma LengthMovesStrings(g: Wire, w: Wire, v: Val, n: nat)
    requires v.VList? && g.order == w.order && forall i | 0 <= i < |v.items| :: v.items[i].VString?
    ensures Encode(0, Flat(g, v, TSeq(TString))) != Encode(0, Flat(w, v, TArray(n, TString)))
  {
    hide Encode;
    var prefix, list := [LengthWord(g, |v.items|)], FlatList(g, v.items, TString);
    SameStrings(g, w, v.items);
    EncodeConcat(0, prefix, list);
    if v.items != [] {
      StringsAbsorbAlignment(g, v.items, 0);
    }
    OneAtom(0, prefix[0]);
  }

  lemma {:induction false} SameStrings(g: Wire, w: Wire, vs: seq<Val>)
    requires g.order == w.order && forall i | 0 <= i < |vs| :: vs[i].VString?
    ensures FlatList(g, vs, TString) == FlatList(w, vs, TString)
  {
    if vs != [] {
      SameStrings(g, w, vs[1..]);
    }
  }

  // A list of strings aligns itself to four, so a prefix in front moves its end by four.
  lemma StringsAbsorbAlignment(w: Wire, vs: seq<Val>, pos: nat)
    requires vs != [] && forall i | 0 <= i < |vs| :: vs[i].VString?
    ensures var list := FlatList(w, vs, TString);
            End(End(pos, [LengthWord(w, |vs|)]), list) == End(pos, list) + 4
  {
    StringsNeedSmallBoundaries(w, vs);
    assert |Flat(w, vs[0], TString)| == 2;
    assert FlatList(w, vs, TString) == Flat(w, vs[0], TString) + FlatList(w, vs[1..], TString);
    WordAbsorbsAlignment(LengthWord(w, |vs|), FlatList(w, vs, TString), pos);
  }

  lemma WordAbsorbsAlignment(prefix: Atom, list: seq<Atom>, pos: nat)
    requires list != [] && SmallBoundaries(list)
    requires prefix.align == 4 == |prefix.bytes| && list[0].align == 4 == |list[0].bytes|
    ensures End(End(pos, [prefix]), list) == End(pos, list) + 4
  {
    hide Padding, SmallBoundaries;
    var q := pos + Padding(pos, 4) + 4;
    PaddingAligns(pos, 4);
    PaddingAligns(q, 4);
    assert [prefix][1..] == [];
    assert End(pos, [prefix]) == q && Start(q, list[0]) == q;
    assert SmallBoundaries(list[1..]) by {
      SmallTail(list);
    }
    EndIsShifted(q, list[1..]);
  }

  lemma SmallTail(list: seq<Atom>)
    requires list != [] && SmallBoundaries(list)
    ensures SmallBoundaries(list[1..])
  {
  }

  predicate SmallBoundaries(atoms: seq<Atom>) {
    forall a <- atoms :: a.align <= 4
  }

  lemma {:induction false} StringsNeedSmallBoundaries(w: Wire, vs: seq<Val>)
    requires forall i | 0 <= i < |vs| :: vs[i].VString?
    ensures SmallBoundaries(FlatList(w, vs, TString))
  {
    if vs != [] {
      StringsNeedSmallBoundaries(w, vs[1..]);
    }
  }

  lemma PaddingIsShifted(q: nat, n: Boundary)
    requires n <= 4
    ensures Padding(q + 4, n) == Padding(q, n)
  {
    if n == 4 {
    } else if n == 2 {
    }
  }

  lemma {:induction false} EndIsShifted(q: nat, atoms: seq<Atom>)
    requires SmallBoundaries(atoms)
    ensures End(q + 4, atoms) == End(q, atoms) + 4
    decreases atoms
  {
    if atoms != [] {
      hide Padding;
      var a := atoms[0];
      PaddingIsShifted(q, a.align);
      EndIsShifted(Start(q, a) + |a.bytes|, atoms[1..]);
    }
  }

  // ----- round trips ----------------------------------------------------------------

  // A Go message value within the limits of the Go decoder.
  predicate Sendable(s: Schema, fields: seq<FieldDefinition>, vs: seq<Val>) {
    && HaveTypes(s.GoTypes(), vs, GoTys(fields))
    && FieldsWithinLimits(s.GoTypes(), false, vs, GoTys(fields))
  }

  // The package of such a schema compiles in Go.
  predicate CompilesInGo(s: Schema, fields: seq<FieldDefinition>) {
    NoFixedStringArrays(s) && forall f <- fields :: !IsFixedStringArray(f)
  }

  // The whole Go codec: what SerializeCDR makes, DeserializeCDR takes apart again.
  method GoRoundTrip(s: Schema, known: set<string>, fields: seq<FieldDefinition>, vs: seq<Val>)
    returns (r: Decoded<seq<Val>>, size: nat)
    requires CompilesInGo(s, fields) && Sendable(s, fields, vs)
    ensures r == Ok(vs, size) && size == End(0, FlatFields(GoWire(s), vs, GoTys(fields)))
  {
    hide Encode, HaveTypes, FieldsWithinLimits, DecodeFields;
    var buf := SerializeCDR(s, fields, vs);
    size := |buf| - 4;
    BodyRoundTrip(GoReader(s, known), GoTys(fields), vs, []);
    assert buf[4..] + [] == buf[4..] == Encode(0, FlatFields(GoWire(s), vs, GoTys(fields)));
    r := DeserializeCDR(s, known, fields, buf);
  }

  // Any reader recovers a body written at position 0, in front of anything, and stops at its end.
  lemma BodyRoundTrip(c: Codec, ts: seq<Ty>, vs: seq<Val>, post: Bytes)
    requires HaveTypes(c.wire.program, vs, ts) && FieldsWithinLimits(c.wire.program, c.lang.Rust?, vs, ts)
    ensures var body := Encode(0, FlatFields(c.wire, vs, ts));
            DecodeFields(c, ts, body + post, 0) == Ok(vs, |body|)
  {
    var t, v := TTuple(ts), VList(vs);
    var body := Encode(0, FlatFields(c.wire, vs, ts));
    assert HasType(c.wire.program, v, t) && WithinLimits(c.wire.program, c.lang.Rust?, v, t);
    assert Flat(c.wire, v, t) == FlatFields(c.wire, vs, ts);
    assert [] + body + post == body + post && [] + body == body;
    hide HasType, WithinLimits, Flat, FlatFields, DecodeFields, Encode;
    GuardedRoundTrip(c, v, t, [], post);
  }

  /**
   Across languages, on a safe schema: the emitted Rust impl recovers from the Go bytes every
   message within the limits of the Rust reader.
   */
  lemma RustReadsGo(r: RustSchema, k: string, vs: seq<Val>, post: Bytes)
    requires HasNoTimeNames(r.messages) && IsSafe(r) && k in r.messages
    requires var p, ts := RustProgram(r), RustProgram(r).Fields(k);
      HaveTypes(p, vs, ts) && FieldsWithinLimits(p, true, vs, ts)
    ensures var body := Encode(0, FlatFields(GoWire(GoSchemaOf(r)), vs, GoTys(ConvertFields(r.messages[k]))));
      DecodeFields(Codec(Wire(Little, RustProgram(r)), Rust), RustProgram(r).Fields(k), body + post, 0)
        == Ok(vs, |body|)
  {
    hide Encode, FlatFields, DecodeFields, HaveTypes, FieldsWithinLimits, ConvertFields, GoTys;
    hide RustTys, IsSafe, HasNoTimeNames, GeneratedRust.IsWellFormed, GeneratedRust.DeriveAccepts;
    EncodersAgree(r, k, vs, 0);
    BodyRoundTrip(Codec(Wire(Little, RustProgram(r)), Rust), RustProgram(r).Fields(k), vs, post);
  }

  // And the guarded Go decoder recovers from the Rust bytes every message within its own limits.
  lemma GoReadsRust(r: RustSchema, known: set<string>, k: string, vs: seq<Val>, post: Bytes)
    requires HasNoTimeNames(r.messages) && IsSafe(r) && k in r.messages
    requires HaveTypes(RustProgram(r), vs, RustProgram(r).Fields(k))
    requires FieldsWithinLimits(GoSchemaOf(r).GoTypes(), false, vs, GoTys(ConvertFields(r.messages[k])))
    ensures var body := Body(r, k, vs, 0);
      DecodeFields(GoReader(GoSchemaOf(r), known), GoTys(ConvertFields(r.messages[k])), body + post, 0)
        == Ok(vs, |body|)
  {
    hide Encode, FlatFields, DecodeFields, HaveTypes, FieldsWithinLimits, ConvertFields, GoTys;
    hide RustTys, IsSafe, HasNoTimeNames, GeneratedRust.IsWellFormed, GeneratedRust.DeriveAccepts;
    EncodersAgree(r, k, vs, 0);
    BodyRoundTrip(GoReader(GoSchemaOf(r), known), GoTys(ConvertFields(r.messages[k])), vs, post);
  }
}
