/**
 Parsed messages and the type descriptions that go into a type hash. A message
 is described twice: as the main type of its own hash, and as the entry other
 messages reference.
 */
module TypeDescriptions {
  import opened TypeNames

  datatype Option<T> = None | Some(value: T)

  datatype ArrayType = Single | Fixed(size: nat) | Bounded(size: nat) | Unbounded

  datatype FieldType = FieldType(
    baseType: string, package: Option<string>, arrayType: ArrayType, stringBound: Option<nat>)

  datatype Field = Field(name: string, fieldType: FieldType)

  datatype ParsedMessage = ParsedMessage(package: string, name: string, fields: seq<Field>)

  datatype FieldDescription = FieldDescription(
    name: string, typeId: nat, capacity: nat, stringCapacity: nat, nestedTypeName: string)

  datatype TypeDescription = TypeDescription(typeName: string, fields: seq<FieldDescription>)

  // The input of the type hash.
  datatype TypeDescriptionMsg = TypeDescriptionMsg(main: TypeDescription, referenced: seq<TypeDescription>)

  predicate IsPrimitive(base: string) {
    base in {"bool", "byte", "char", "uint8", "int8", "uint16", "int16", "uint32", "int32",
             "uint64", "int64", "float32", "float64", "string", "wstring"}
  }

  // The ids of single primitives; wstring has none.
  function BaseId(base: string): Option<nat> {
    if base == "int8" then Some(2)
    else if base == "uint8" || base == "char" then Some(3)
    else if base == "int16" then Some(4)
    else if base == "uint16" then Some(5)
    else if base == "int32" then Some(6)
    else if base == "uint32" then Some(7)
    else if base == "int64" then Some(8)
    else if base == "uint64" then Some(9)
    else if base == "float32" then Some(10)
    else if base == "float64" then Some(11)
    else if base == "bool" then Some(15)
    else if base == "byte" then Some(16)
    else if base == "string" then Some(17)
    else None
  }

  const NESTED_TYPE: nat := 1
  const BOUNDED_STRING: nat := 21

  function ArrayOffset(a: ArrayType): nat {
    match a
    case Single => 0
    case Fixed(_) => 48
    case Bounded(_) => 96
    case Unbounded => 144
  }

  // None is the "Unsupported field type" error.
  function GetTypeId(ft: FieldType): Option<nat> {
    if ft.package.Some? || !IsPrimitive(ft.baseType) then Some(NESTED_TYPE + ArrayOffset(ft.arrayType))
    else if ft.stringBound.Some? && ft.baseType == "string" then Some(BOUNDED_STRING)
    else
      var base := BaseId(ft.baseType);
      if base.None? then None else Some(base.value + ArrayOffset(ft.arrayType))
  }

  predicate IsSupported(m: ParsedMessage) {
    forall f <- m.fields :: GetTypeId(f.fieldType).Some?
  }

  function Capacity(ft: FieldType): nat {
    if ft.arrayType.Fixed? || ft.arrayType.Bounded? then ft.arrayType.size else 0
  }

  function Bound(ft: FieldType): nat {
    if ft.stringBound.Some? then ft.stringBound.value else 0
  }

  function PackageFor(ft: FieldType, package: string): string {
    if ft.package.Some? then ft.package.value else package
  }

  // Empty for primitives; a missing package is the message's own.
  function NestedTypeName(ft: FieldType, package: string): string {
    if IsPrimitive(ft.baseType) then "" else FullName(PackageFor(ft, package), ft.baseType)
  }

  function TypeIdOr0(ft: FieldType): nat {
    if GetTypeId(ft).Some? then GetTypeId(ft).value else 0
  }

  const PLACEHOLDER: FieldDescription := FieldDescription("structure_needs_at_least_one_member", 3, 0, 0, "")

  // `build_type_description_msg`: the field as part of the main type.
  function MainField(f: Field, package: string): FieldDescription {
    var ft := f.fieldType;
    var nested := NestedTypeName(ft, package);
    var stringCapacity := if nested == "" && Capacity(ft) == 0 then Bound(ft) else 0;
    FieldDescription(f.name, TypeIdOr0(ft), Capacity(ft), stringCapacity, nested)
  }

  function MainDescription(m: ParsedMessage): TypeDescription {
    TypeDescription(
      FullName(m.package, m.name),
      if m.fields == [] then [PLACEHOLDER]
      else seq(|m.fields|, i requires 0 <= i < |m.fields| => MainField(m.fields[i], m.package)))
  }

  // `type_description`: the field as part of a referenced type.
  function ReferencedField(f: Field, package: string): FieldDescription {
    FieldDescription(f.name, TypeIdOr0(f.fieldType), Capacity(f.fieldType), Bound(f.fieldType),
                     NestedTypeName(f.fieldType, package))
  }

  function Describe(m: ParsedMessage): TypeDescription {
    TypeDescription(
      FullName(m.package, m.name),
      if m.fields == [] then [PLACEHOLDER]
      else seq(|m.fields|, i requires 0 <= i < |m.fields| => ReferencedField(m.fields[i], m.package)))
  }

  /**
   The two descriptions of a message differ in one place: a string bound on an array, or on
   a nested type, is kept in the referenced form and dropped from the main form.
   */
  lemma DescriptionsAgreeExactly(m: ParsedMessage)
    ensures MainDescription(m) == Describe(m) <==>
      forall f <- m.fields ::
        Bound(f.fieldType) == 0 || (Capacity(f.fieldType) == 0 && IsPrimitive(f.fieldType.baseType))
  {
    hide IsPrimitive, GetTypeId;
    var a, b := MainDescription(m).fields, Describe(m).fields;
    forall i | 0 <= i < |m.fields|
      ensures a[i] == b[i] <==>
        var ft := m.fields[i].fieldType; Bound(ft) == 0 || (Capacity(ft) == 0 && IsPrimitive(ft.baseType))
    {
      assert |FullName(PackageFor(m.fields[i].fieldType, m.package), m.fields[i].fieldType.baseType)| >= 5;
    }
    if forall f <- m.fields ::
        Bound(f.fieldType) == 0 || (Capacity(f.fieldType) == 0 && IsPrimitive(f.fieldType.baseType))
    {
      assert forall i | 0 <= i < |m.fields| :: m.fields[i] in m.fields;
      assert a == b;
    }
  }

  // ----- dependencies -----------------------------------------------------------------------

  function MessageKey(m: ParsedMessage): string {
    Key(m.package, m.name)
  }

  function DepKey(f: Field, package: string): string {
    Key(PackageFor(f.fieldType, package), f.fieldType.baseType)
  }

  function DepKeys(m: ParsedMessage): set<string> {
    set f <- m.fields | !IsPrimitive(f.fieldType.baseType) :: DepKey(f, m.package)
  }

  // What a description refers to, by key.
  function Links(fields: seq<FieldDescription>): set<string> {
    set f <- fields | f.nestedTypeName != "" :: NestedKey(f.nestedTypeName)
  }

  // Names as the parser hands them over: "pkg/Type" has been split at its slash.
  predicate WellNamed(m: ParsedMessage) {
    && SlashFree(m.package) && SlashFree(m.name)
    && forall f <- m.fields :: SlashFree(f.fieldType.baseType) && SlashFree(PackageFor(f.fieldType, m.package))
  }

  ghost predicate FullyNamed(d: TypeDescription) {
    IsFullName(d.typeName) && forall f <- d.fields :: f.nestedTypeName == "" || IsFullName(f.nestedTypeName)
  }

  lemma DescribedField(f: Field, package: string)
    requires SlashFree(f.fieldType.baseType) && SlashFree(PackageFor(f.fieldType, package))
    ensures var nested := NestedTypeName(f.fieldType, package);
      if IsPrimitive(f.fieldType.baseType) then nested == ""
      else nested != "" && IsFullName(nested) && NestedKey(nested) == DepKey(f, package)
  {
    hide IsPrimitive;
    SplitFullName(PackageFor(f.fieldType, package), f.fieldType.baseType);
    assert |FullName(PackageFor(f.fieldType, package), f.fieldType.baseType)| >= 5;
  }

  lemma DescribedLinks(m: ParsedMessage)
    requires WellNamed(m)
    ensures Links(Describe(m).fields) == DepKeys(m)
    ensures FullyNamed(Describe(m)) && NestedKey(Describe(m).typeName) == MessageKey(m)
  {
    hide IsPrimitive, GetTypeId, NestedTypeName, NestedKey, DepKey;
    SplitFullName(m.package, m.name);
    var fields := Describe(m).fields;
    forall i | 0 <= i < |m.fields|
      ensures var f := m.fields[i];
        && (!IsPrimitive(f.fieldType.baseType) ==>
              IsFullName(fields[i].nestedTypeName) && NestedKey(fields[i].nestedTypeName) == DepKey(f, m.package))
        && (fields[i].nestedTypeName == "" <==> IsPrimitive(f.fieldType.baseType))
    {
      var f := m.fields[i];
      assert f in m.fields;
      DescribedField(f, m.package);
    }
    forall k | k in DepKeys(m) ensures k in Links(fields) {
      var f :| f in m.fields && !IsPrimitive(f.fieldType.baseType) && k == DepKey(f, m.package);
      var i :| 0 <= i < |m.fields| && m.fields[i] == f;
      assert fields[i] in fields;
    }
    forall k | k in Links(fields) ensures k in DepKeys(m) {
      var d :| d in fields && d.nestedTypeName != "" && k == NestedKey(d.nestedTypeName);
      var i :| 0 <= i < |fields| && fields[i] == d;
      assert m.fields != [];
      assert m.fields[i] in m.fields;
    }
  }
}
