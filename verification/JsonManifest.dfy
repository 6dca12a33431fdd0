/**
 The manifest the Go generator reads, exported from the same resolved messages
 the Rust generator takes.
 */
module JsonManifest {
  import opened CdrLayout
  import opened GoSchema
  import Parsed = TypeDescriptions

  // `convert_field_type`: a reference without a package is to the message's own.
  function ConvertKind(ft: Parsed.FieldType, parent: string): Kind {
    var base := ft.baseType;
    if base == "bool" then Primitive(Bool)
    else if base == "int8" then Primitive(I8)
    else if base == "int16" then Primitive(I16)
    else if base == "int32" then Primitive(I32)
    else if base == "int64" then Primitive(I64)
    else if base == "uint8" || base == "byte" || base == "char" then Primitive(U8)
    else if base == "uint16" then Primitive(U16)
    else if base == "uint32" then Primitive(U32)
    else if base == "uint64" then Primitive(U64)
    else if base == "float32" then Primitive(F32)
    else if base == "float64" then Primitive(F64)
    else if base == "string" then String
    else if base == "builtin_interfaces/Time" || base == "time" then Time
    else if base == "builtin_interfaces/Duration" || base == "duration" then Duration
    else Custom(Parsed.PackageFor(ft, parent), base)
  }

  function ConvertShape(a: Parsed.ArrayType): ArrayKind {
    match a
    case Single => Single
    case Fixed(n) => Fixed(n)
    case Bounded(n) => Bounded(n)
    case Unbounded => Unbounded
  }

  function ConvertField(f: Parsed.Field, parent: string): FieldDefinition {
    FieldDefinition(f.name, ConvertKind(f.fieldType, parent), ConvertShape(f.fieldType.arrayType))
  }

  function ConvertFields(m: Parsed.ParsedMessage): (r: seq<FieldDefinition>)
    ensures |r| == |m.fields| && forall i | 0 <= i < |m.fields| :: r[i] == ConvertField(m.fields[i], m.package)
  {
    seq(|m.fields|, i requires 0 <= i < |m.fields| => ConvertField(m.fields[i], m.package))
  }

  function Manifest(messages: map<string, Parsed.ParsedMessage>, rank: map<string, nat>): GeneratedTypes {
    GeneratedTypes(map k <- messages :: ConvertFields(messages[k]), rank)
  }

  // "time" and "duration" are names of the manifest only; in Rust they would be messages.
  predicate IsTimeName(base: string) {
    base in {"time", "duration", "builtin_interfaces/Time", "builtin_interfaces/Duration"}
  }
}
