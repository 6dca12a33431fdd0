/**
 What a type description says about a message, without the numbers it says it in: the type
 ids and capacities against the names, shapes and sizes of the fields.
 */
module FieldMeanings {
  import opened TypeNames
  import opened TypeDescriptions
  import opened TypeClosure
  import opened TypeHashing
  import opened Worklist

  // ----- which types are supported --------------------------------------------------------

  // Only a wide string has no id.
  lemma SupportedExactly(ft: FieldType)
    ensures GetTypeId(ft).None? <==> ft.package.None? && ft.baseType == "wstring"
  {
  }

  predicate HasWideString(m: ParsedMessage) {
    exists f <- m.fields :: f.fieldType.package.None? && f.fieldType.baseType == "wstring"
  }

  lemma MessageIsSupported(m: ParsedMessage)
    ensures IsSupported(m) <==> !HasWideString(m)
  {
    hide GetTypeId;
    forall f | f in m.fields
      ensures GetTypeId(f.fieldType).None? <==> f.fieldType.package.None? && f.fieldType.baseType == "wstring"
    {
      SupportedExactly(f.fieldType);
    }
  }

  // A run ends with an unsupported type only when a message has a wide string.
  lemma OnlyWideStringsAreUnsupported(external: set<string>, known: set<string>, messages: seq<ParsedMessage>)
    requires forall m <- messages :: !HasWideString(m)
    ensures !RunQueue(external, known, messages, 0, 0).outcome.Unsupported?
  {
    hide RunQueue, HasWideString, IsSupported, IsReadyOrder;
    RunResolvesReadyMessages(external, known, messages, 0, 0);
    RunKeepsEveryMessage(external, known, messages, 0, 0);
    var e := RunQueue(external, known, messages, 0, 0);
    if e.outcome.Unsupported? {
      var m :| m in e.left && !IsSupported(m);
      assert m in multiset(messages);
      MessageIsSupported(m);
    }
  }

  // At most 101 messages are resolved exactly when some order works and none has a wide string.
  lemma ResolvedExactly(external: set<string>, known: set<string>, messages: seq<ParsedMessage>)
    requires |messages| <= 101
    ensures RunQueue(external, known, messages, 0, 0).outcome.Done? <==>
      IsResolvable(external, known, messages) && forall m <- messages :: !HasWideString(m)
  {
    hide RunQueue, HasWideString, IsSupported, IsResolvable;
    ResolverIsComplete(external, known, messages);
    forall m | m in messages ensures IsSupported(m) <==> !HasWideString(m) {
      MessageIsSupported(m);
    }
  }

  // ----- the ids ------------------------------------------------------------------------------

  // The ids of a type, by itself, in a fixed array, a bounded and an unbounded sequence.
  ghost predicate HasIds(base: string, package: Option<string>, single: nat, fixed: nat, bounded: nat, unbounded: nat) {
    && GetTypeId(FieldType(base, package, Single, None)) == Some(single)
    && (forall n :: GetTypeId(FieldType(base, package, Fixed(n), None)) == Some(fixed))
    && (forall n :: GetTypeId(FieldType(base, package, Bounded(n), None)) == Some(bounded))
    && GetTypeId(FieldType(base, package, Unbounded, None)) == Some(unbounded)
  }

  lemma IdsFollowTheBase(base: string, id: nat)
    requires IsPrimitive(base) && BaseId(base) == Some(id)
    ensures HasIds(base, None, id, id + 48, id + 96, id + 144)
  {
    hide IsPrimitive, BaseId;
  }

  lemma SmallBases()
    ensures IsPrimitive("bool") && IsPrimitive("byte") && IsPrimitive("char")
    ensures IsPrimitive("int8") && IsPrimitive("uint8")
    ensures BaseId("bool") == Some(15) && BaseId("byte") == Some(16) && BaseId("char") == Some(3)
    ensures BaseId("int8") == Some(2) && BaseId("uint8") == Some(3)
  {
  }

  lemma IntegerBases()
    ensures IsPrimitive("int16") && IsPrimitive("uint16") && IsPrimitive("int32") && IsPrimitive("uint32")
    ensures IsPrimitive("int64") && IsPrimitive("uint64")
    ensures BaseId("int16") == Some(4) && BaseId("uint16") == Some(5)
    ensures BaseId("int32") == Some(6) && BaseId("uint32") == Some(7)
    ensures BaseId("int64") == Some(8) && BaseId("uint64") == Some(9)
  {
  }

  lemma OtherBases()
    ensures IsPrimitive("float32") && IsPrimitive("float64") && IsPrimitive("string")
    ensures BaseId("float32") == Some(10) && BaseId("float64") == Some(11) && BaseId("string") == Some(17)
  {
  }

  // The ids of the builtin types.
  lemma BuiltinIds()
    ensures HasIds("int8", None, 2, 50, 98, 146) && HasIds("uint8", None, 3, 51, 99, 147)
    ensures HasIds("int16", None, 4, 52, 100, 148) && HasIds("uint16", None, 5, 53, 101, 149)
    ensures HasIds("int32", None, 6, 54, 102, 150) && HasIds("uint32", None, 7, 55, 103, 151)
    ensures HasIds("int64", None, 8, 56, 104, 152) && HasIds("uint64", None, 9, 57, 105, 153)
    ensures HasIds("float32", None, 10, 58, 106, 154) && HasIds("float64", None, 11, 59, 107, 155)
    ensures HasIds("bool", None, 15, 63, 111, 159) && HasIds("byte", None, 16, 64, 112, 160)
    ensures HasIds("char", None, 3, 51, 99, 147) && HasIds("string", None, 17, 65, 113, 161)
  {
    hide IsPrimitive, BaseId, HasIds;
    SmallBases();
    IntegerBases();
    OtherBases();
    IdsFollowTheBase("int8", 2);
    IdsFollowTheBase("uint8", 3);
    IdsFollowTheBase("int16", 4);
    IdsFollowTheBase("uint16", 5);
    IdsFollowTheBase("int32", 6);
    IdsFollowTheBase("uint32", 7);
    IdsFollowTheBase("int64", 8);
    IdsFollowTheBase("uint64", 9);
    IdsFollowTheBase("float32", 10);
    IdsFollowTheBase("float64", 11);
    IdsFollowTheBase("bool", 15);
    IdsFollowTheBase("byte", 16);
    IdsFollowTheBase("char", 3);
    IdsFollowTheBase("string", 17);
  }

  // A message type, with its package or without, and a bounded string in whatever array.
  lemma OtherIds(ft: FieldType)
    ensures ft.package.Some? || !IsPrimitive(ft.baseType) ==>
      GetTypeId(ft) == match ft.arrayType
                       case Single => Some(1)
                       case Fixed(_) => Some(49)
                       case Bounded(_) => Some(97)
                       case Unbounded => Some(145)
    ensures ft.package.None? && ft.baseType == "string" && ft.stringBound.Some? ==> GetTypeId(ft) == Some(21)
  {
    hide BaseId;
  }

  // ----- what a description keeps -------------------------------------------------------------------

  /**
   What is left of a field type. The name char is gone, a bounded string keeps the size of its
   array but not which array it is, and of a builtin name with a package only the array is left.
   */
  datatype Meaning =
    | Builtin(base: string, arrayType: ArrayType)
    | BoundedString(size: nat)
    | PackagedBuiltin(arrayType: ArrayType)
    | Nested(package: string, name: string, arrayType: ArrayType)

  function SizeOfArray(a: ArrayType): nat {
    match a
    case Fixed(n) => n
    case Bounded(n) => n
    case _ => 0
  }

  function MeaningOf(ft: FieldType, source: string): Meaning {
    if ft.baseType !in {"bool", "byte", "char", "uint8", "int8", "uint16", "int16", "uint32", "int32",
                        "uint64", "int64", "float32", "float64", "string", "wstring"} then
      Nested(if ft.package.Some? then ft.package.value else source, ft.baseType, ft.arrayType)
    else if ft.package.Some? then PackagedBuiltin(ft.arrayType)
    else if ft.baseType == "string" && ft.stringBound.Some? then BoundedString(SizeOfArray(ft.arrayType))
    else Builtin(if ft.baseType == "char" then "uint8" else ft.baseType, ft.arrayType)
  }

  function BoundOf(ft: FieldType): nat {
    match ft.stringBound
    case Some(bound) => bound
    case None => 0
  }

  // In a main description a bound is shown next to a builtin name without an array size only.
  function ShownBound(ft: FieldType, source: string): nat {
    if MeaningOf(ft, source).Nested? || SizeOfArray(ft.arrayType) > 0 then 0 else BoundOf(ft)
  }

  predicate SameReferenced(f: Field, package: string, g: Field, other: string) {
    && f.name == g.name && MeaningOf(f.fieldType, package) == MeaningOf(g.fieldType, other)
    && BoundOf(f.fieldType) == BoundOf(g.fieldType)
  }

  predicate SameMain(f: Field, package: string, g: Field, other: string) {
    && f.name == g.name && MeaningOf(f.fieldType, package) == MeaningOf(g.fieldType, other)
    && ShownBound(f.fieldType, package) == ShownBound(g.fieldType, other)
  }

  lemma FullNamesAreUnique(p: string, b: string, q: string, c: string)
    requires SlashFree(p) && SlashFree(q)
    ensures FullName(p, b) == FullName(q, c) <==> p == q && b == c
    ensures FullName(p, b) != ""
  {
    hide FirstSlash, NestedKey;
    assert |FullName(p, b)| >= 5;
    if FullName(p, b) == FullName(q, c) {
      SplitFullName(p, b);
      SplitFullName(q, c);
      var k := Key(p, b);
      PackageOfKey(p, b);
      PackageOfKey(q, c);
      assert b == k[|p| + 1..] == c;
    }
  }

  // ----- field by field ---------------------------------------------------------------------------

  // Ids tell the builtin types apart, char and uint8 aside.
  lemma BasesAreUnique(a: string, b: string)
    requires BaseId(a).Some? && BaseId(b).Some?
    ensures BaseId(a) == BaseId(b) <==> (if a == "char" then "uint8" else a) == if b == "char" then "uint8" else b
    ensures 2 <= BaseId(a).value <= 17
  {
  }

  lemma IdExactly(ft: FieldType, gt: FieldType, source: string, other: string)
    requires GetTypeId(ft).Some? && GetTypeId(gt).Some?
    requires MeaningOf(ft, source).Nested? == MeaningOf(gt, other).Nested?
    ensures GetTypeId(ft) == GetTypeId(gt) && Capacity(ft) == Capacity(gt) <==>
      (MeaningOf(ft, source) == MeaningOf(gt, other)
       || (MeaningOf(ft, source).Nested? && ft.arrayType == gt.arrayType))
  {
    hide BaseId;
    if BaseId(ft.baseType).Some? {
      BasesAreUnique(ft.baseType, ft.baseType);
      if BaseId(gt.baseType).Some? {
        BasesAreUnique(ft.baseType, gt.baseType);
      }
    }
    if BaseId(gt.baseType).Some? {
      BasesAreUnique(gt.baseType, gt.baseType);
    }
  }

  // What a name says when it is not builtin.
  lemma NestedExactly(ft: FieldType, gt: FieldType, source: string, other: string)
    requires SlashFree(PackageFor(ft, source)) && SlashFree(PackageFor(gt, other))
    ensures NestedTypeName(ft, source) == "" <==> !MeaningOf(ft, source).Nested?
    ensures NestedTypeName(ft, source) == NestedTypeName(gt, other) <==>
      var a, b := MeaningOf(ft, source), MeaningOf(gt, other);
      if a.Nested? && b.Nested? then a.package == b.package && a.name == b.name else !a.Nested? && !b.Nested?
  {
    FullNamesAreUnique(PackageFor(ft, source), ft.baseType, PackageFor(gt, other), gt.baseType);
    FullNamesAreUnique(PackageFor(gt, other), gt.baseType, PackageFor(gt, other), gt.baseType);
    hide FullName;
  }

  // Both kinds of field description are equal exactly for fields of the same meaning.
  lemma SameFieldExactly(f: Field, g: Field, source: string, other: string)
    requires SlashFree(PackageFor(f.fieldType, source)) && SlashFree(PackageFor(g.fieldType, other))
    requires GetTypeId(f.fieldType).Some? && GetTypeId(g.fieldType).Some?
    ensures ReferencedField(f, source) == ReferencedField(g, other) <==> SameReferenced(f, source, g, other)
    ensures MainField(f, source) == MainField(g, other) <==> SameMain(f, source, g, other)
  {
    hide GetTypeId, NestedTypeName, MeaningOf;
    var ft, gt := f.fieldType, g.fieldType;
    NestedExactly(ft, gt, source, other);
    NestedExactly(gt, ft, other, source);
    if MeaningOf(ft, source).Nested? == MeaningOf(gt, other).Nested? {
      IdExactly(ft, gt, source, other);
    }
    NestedHasArrayType(ft, source);
    NestedHasArrayType(gt, other);
  }

  lemma NestedHasArrayType(ft: FieldType, source: string)
    ensures MeaningOf(ft, source).Nested? ==> MeaningOf(ft, source).arrayType == ft.arrayType
    ensures SizeOfArray(ft.arrayType) == Capacity(ft) && BoundOf(ft) == Bound(ft)
  {
  }

  // ----- message by message -----------------------------------------------------------------------

  // A message without fields is described as one with this field.
  const STAND_IN: Field :=
    Field("structure_needs_at_least_one_member", FieldType("uint8", None, Single, None))

  function FieldsOf(m: ParsedMessage): seq<Field> {
    if m.fields == [] then [STAND_IN] else m.fields
  }

  lemma StandInIsDescribed(package: string)
    ensures MainField(STAND_IN, package) == PLACEHOLDER == ReferencedField(STAND_IN, package)
    ensures GetTypeId(STAND_IN.fieldType).Some?
  {
  }

  lemma DescribedFields(m: ParsedMessage)
    requires WellNamed(m) && IsSupported(m)
    ensures MainDescription(m) ==
      TypeDescription(FullName(m.package, m.name),
                      seq(|FieldsOf(m)|, i requires 0 <= i < |FieldsOf(m)| => MainField(FieldsOf(m)[i], m.package)))
    ensures Describe(m) ==
      TypeDescription(FullName(m.package, m.name),
                      seq(|FieldsOf(m)|,
                          i requires 0 <= i < |FieldsOf(m)| => ReferencedField(FieldsOf(m)[i], m.package)))
    ensures forall f <- FieldsOf(m) :: GetTypeId(f.fieldType).Some? && SlashFree(PackageFor(f.fieldType, m.package))
  {
    hide MainField, ReferencedField, GetTypeId;
    StandInIsDescribed(m.package);
  }

  lemma SameSequences(a: seq<FieldDescription>, b: seq<FieldDescription>)
    requires |a| == |b|
    ensures a == b <==> forall i | 0 <= i < |a| :: a[i] == b[i]
  {
  }

  /**
   A description determines its message, up to what the meanings leave out: two supported
   messages have the same main description exactly when they have the same name and, field by
   field, the same names and meanings.
   */
  lemma MainDescriptionDeterminesMessage(m: ParsedMessage, n: ParsedMessage)
    requires WellNamed(m) && WellNamed(n) && IsSupported(m) && IsSupported(n)
    ensures MainDescription(m) == MainDescription(n) <==>
      && m.package == n.package && m.name == n.name && |FieldsOf(m)| == |FieldsOf(n)|
      && forall i | 0 <= i < |FieldsOf(m)| :: SameMain(FieldsOf(m)[i], m.package, FieldsOf(n)[i], n.package)
  {
    hide MainField, ReferencedField, GetTypeId, SameMain, FieldsOf, FullName, MainDescription, Describe;
    DescribedFields(m);
    DescribedFields(n);
    FullNamesAreUnique(m.package, m.name, n.package, n.name);
    if |FieldsOf(m)| == |FieldsOf(n)| {
      forall i | 0 <= i < |FieldsOf(m)|
        ensures MainField(FieldsOf(m)[i], m.package) == MainField(FieldsOf(n)[i], n.package) <==>
          SameMain(FieldsOf(m)[i], m.package, FieldsOf(n)[i], n.package)
      {
        SameFieldExactly(FieldsOf(m)[i], FieldsOf(n)[i], m.package, n.package);
      }
      var a, b := MainDescription(m).fields, MainDescription(n).fields;
      assert forall i | 0 <= i < |a| ::
        a[i] == MainField(FieldsOf(m)[i], m.package) && b[i] == MainField(FieldsOf(n)[i], n.package);
      SameSequences(a, b);
    }
  }

  // The description under which other messages see it determines the string bounds as well.
  lemma DescriptionDeterminesMessage(m: ParsedMessage, n: ParsedMessage)
    requires WellNamed(m) && WellNamed(n) && IsSupported(m) && IsSupported(n)
    ensures Describe(m) == Describe(n) <==>
      && m.package == n.package && m.name == n.name && |FieldsOf(m)| == |FieldsOf(n)|
      && forall i | 0 <= i < |FieldsOf(m)| :: SameReferenced(FieldsOf(m)[i], m.package, FieldsOf(n)[i], n.package)
  {
    hide MainField, ReferencedField, GetTypeId, SameReferenced, FieldsOf, FullName, MainDescription, Describe;
    DescribedFields(m);
    DescribedFields(n);
    FullNamesAreUnique(m.package, m.name, n.package, n.name);
    if |FieldsOf(m)| == |FieldsOf(n)| {
      forall i | 0 <= i < |FieldsOf(m)|
        ensures ReferencedField(FieldsOf(m)[i], m.package) == ReferencedField(FieldsOf(n)[i], n.package) <==>
          SameReferenced(FieldsOf(m)[i], m.package, FieldsOf(n)[i], n.package)
      {
        SameFieldExactly(FieldsOf(m)[i], FieldsOf(n)[i], m.package, n.package);
      }
      var a, b := Describe(m).fields, Describe(n).fields;
      assert forall i | 0 <= i < |a| ::
        a[i] == ReferencedField(FieldsOf(m)[i], m.package) && b[i] == ReferencedField(FieldsOf(n)[i], n.package);
      SameSequences(a, b);
    }
  }

  lemma MeaningGivesTheLink(f: Field, source: string)
    ensures IsPrimitive(f.fieldType.baseType) <==> !MeaningOf(f.fieldType, source).Nested?
    ensures var a := MeaningOf(f.fieldType, source); a.Nested? ==> DepKey(f, source) == Key(a.package, a.name)
  {
  }

  lemma SameMeaningsSameLinks(m: ParsedMessage, n: ParsedMessage)
    requires |FieldsOf(m)| == |FieldsOf(n)|
    requires forall i | 0 <= i < |FieldsOf(m)| ::
      MeaningOf(FieldsOf(m)[i].fieldType, m.package) == MeaningOf(FieldsOf(n)[i].fieldType, n.package)
    ensures DepKeys(m) <= DepKeys(n)
  {
    hide MeaningOf, IsPrimitive, DepKey;
    MeaningGivesTheLink(STAND_IN, m.package);
    StandInIsBuiltin();
    forall k | k in DepKeys(m) ensures k in DepKeys(n) {
      var f :| f in m.fields && !IsPrimitive(f.fieldType.baseType) && k == DepKey(f, m.package);
      var i :| 0 <= i < |m.fields| && m.fields[i] == f;
      var g := FieldsOf(n)[i];
      assert g in FieldsOf(n);
      MeaningGivesTheLink(f, m.package);
      MeaningGivesTheLink(g, n.package);
      assert g != STAND_IN && g in n.fields;
    }
  }

  lemma StandInIsBuiltin()
    ensures IsPrimitive(STAND_IN.fieldType.baseType)
  {
  }

  /**
   In one registry two messages have the same hash input exactly when they have the same name
   and, field by field, the same names and meanings.
   */
  lemma HashInputDeterminesMessage(m: ParsedMessage, n: ParsedMessage, deps: Descriptions)
    requires WellNamed(m) && WellNamed(n) && IsSupported(m) && IsSupported(n)
    ensures HashInput(m, deps) == HashInput(n, deps) <==>
      && m.package == n.package && m.name == n.name && |FieldsOf(m)| == |FieldsOf(n)|
      && forall i | 0 <= i < |FieldsOf(m)| :: SameMain(FieldsOf(m)[i], m.package, FieldsOf(n)[i], n.package)
  {
    hide MainDescription, FieldsOf, WellNamed, IsSupported, MeaningOf, ShownBound, DepKeys, InNameOrder, IsReachable;
    MainDescriptionDeterminesMessage(m, n);
    if MainDescription(m) == MainDescription(n) {
      SameMeaningsSameLinks(m, n);
      SameMeaningsSameLinks(n, m);
      assert DepKeys(m) == DepKeys(n);
    }
  }

  // ----- ordinary messages --------------------------------------------------------------------------

  // No bounded strings, and no builtin name with a package.
  predicate IsOrdinary(ft: FieldType) {
    ft.stringBound.None? && (ft.package.Some? ==> !IsPrimitive(ft.baseType))
  }

  // Where a field refers to, if it does.
  function Target(ft: FieldType, source: string): Option<string> {
    if IsPrimitive(ft.baseType) then None else Some(PackageFor(ft, source))
  }

  lemma OrdinaryMeaning(ft: FieldType, gt: FieldType, source: string, other: string)
    requires IsOrdinary(ft) && IsOrdinary(gt)
    ensures MeaningOf(ft, source) == MeaningOf(gt, other) <==>
      && ft.arrayType == gt.arrayType && Target(ft, source) == Target(gt, other)
      && (if ft.baseType == "char" then "uint8" else ft.baseType)
         == if gt.baseType == "char" then "uint8" else gt.baseType
  {
  }

  /**
   Ordinary messages with equal descriptions are equal but for char and uint8, and for a
   package that is spelled out or left out.
   */
  lemma OrdinaryMessagesAreDetermined(m: ParsedMessage, n: ParsedMessage)
    requires WellNamed(m) && WellNamed(n) && IsSupported(m) && IsSupported(n)
    requires (forall f <- m.fields :: IsOrdinary(f.fieldType)) && forall f <- n.fields :: IsOrdinary(f.fieldType)
    requires m.fields != [] && n.fields != [] && MainDescription(m) == MainDescription(n)
    ensures m.package == n.package && m.name == n.name && |m.fields| == |n.fields|
    ensures forall i | 0 <= i < |m.fields| ::
      var f, g := m.fields[i], n.fields[i];
      && f.name == g.name && f.fieldType.arrayType == g.fieldType.arrayType
      && Target(f.fieldType, m.package) == Target(g.fieldType, n.package)
      && (f.fieldType.baseType == g.fieldType.baseType
          || {f.fieldType.baseType, g.fieldType.baseType} == {"char", "uint8"})
  {
    hide MainDescription, MeaningOf, Target, IsOrdinary, ShownBound, IsSupported, WellNamed;
    MainDescriptionDeterminesMessage(m, n);
    forall i | 0 <= i < |m.fields|
      ensures var f, g := m.fields[i], n.fields[i];
        && f.name == g.name && f.fieldType.arrayType == g.fieldType.arrayType
        && Target(f.fieldType, m.package) == Target(g.fieldType, n.package)
        && (f.fieldType.baseType == g.fieldType.baseType
            || {f.fieldType.baseType, g.fieldType.baseType} == {"char", "uint8"})
    {
      assert SameMain(FieldsOf(m)[i], m.package, FieldsOf(n)[i], n.package);
      assert m.fields[i] in m.fields && n.fields[i] in n.fields;
      OrdinaryMeaning(m.fields[i].fieldType, n.fields[i].fieldType, m.package, n.package);
    }
  }

  // A bounded string and a sequence of them are described, and hashed, alike.
  lemma BoundedStringsLoseTheirShape(name: string, bound: nat)
    ensures var one, many :=
        Field(name, FieldType("string", None, Single, Some(bound))),
        Field(name, FieldType("string", None, Unbounded, Some(bound)));
      MainDescription(ParsedMessage("p", "M", [one])) == MainDescription(ParsedMessage("p", "M", [many]))
  {
    var one := Field(name, FieldType("string", None, Single, Some(bound)));
    var many := Field(name, FieldType("string", None, Unbounded, Some(bound)));
    assert MainField(one, "p") == MainField(many, "p");
    assert MainDescription(ParsedMessage("p", "M", [one])).fields == [MainField(one, "p")];
    assert MainDescription(ParsedMessage("p", "M", [many])).fields == [MainField(many, "p")];
  }

  // `unique_identifier_msgs/UUID` and the empty message, as they go into a hash.
  lemma TwoDescriptions()
    ensures MainDescription(ParsedMessage("unique_identifier_msgs", "UUID",
                                          [Field("uuid", FieldType("uint8", None, Fixed(16), None))]))
         == TypeDescription("unique_identifier_msgs/msg/UUID", [FieldDescription("uuid", 51, 16, 0, "")])
    ensures MainDescription(ParsedMessage("std_msgs", "Empty", []))
         == TypeDescription("std_msgs/msg/Empty",
                            [FieldDescription("structure_needs_at_least_one_member", 3, 0, 0, "")])
  {
    var uuid := Field("uuid", FieldType("uint8", None, Fixed(16), None));
    assert MainField(uuid, "unique_identifier_msgs") == FieldDescription("uuid", 51, 16, 0, "");
    assert MainDescription(ParsedMessage("unique_identifier_msgs", "UUID", [uuid])).fields
        == [MainField(uuid, "unique_identifier_msgs")];
  }
}
