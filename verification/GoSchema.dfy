/**
 Message schemas as the Go generator reads them from its manifest, and the wire
 types they stand for in the emitted code.
 */
module GoSchema {
  import opened CdrWire
  import opened CdrLayout
  import opened CdrTypes

  // ROS has no 32-bit char: its char is a uint8.
  type RosPrim = p: Prim | p != Char witness Bool

  // The manifest knows these kinds only.
  datatype Kind = Primitive(prim: RosPrim) | String | Time | Duration | Custom(package: string, name: string)

  datatype ArrayKind = Single | Fixed(size: nat) | Bounded(size: nat) | Unbounded

  datatype FieldDefinition = FieldDefinition(name: string, kind: Kind, shape: ArrayKind) {
    predicate IsArray() { !shape.Single? }
    predicate IsSequence() { shape.Bounded? || shape.Unbounded? }
  }

  function MessageKey(package: string, name: string): string {
    package + "/" + name
  }

  const TIME_FIELDS: seq<FieldDefinition> :=
    [FieldDefinition("sec", Primitive(I32), Single), FieldDefinition("nanosec", Primitive(U32), Single)]

  function ElemTy(kind: Kind): Ty {
    match kind
    case Primitive(prim) => TPrim(prim)
    case String => TString
    case Time | Duration => TIME
    case Custom(package, name) => TMsg(MessageKey(package, name))
  }

  // The emitted Go code writes a length prefix in front of every array of strings.
  function GoTy(f: FieldDefinition): Ty {
    match f.shape
    case Single => ElemTy(f.kind)
    case Fixed(n) => if f.kind == String then TSeq(TString) else TArray(n, ElemTy(f.kind))
    case _ => TSeq(ElemTy(f.kind))
  }

  function GoTys(fields: seq<FieldDefinition>): (r: seq<Ty>)
    ensures |r| == |fields| && forall i | 0 <= i < |fields| :: r[i] == GoTy(fields[i])
  {
    seq(|fields|, i requires 0 <= i < |fields| => GoTy(fields[i]))
  }

  /**
   The generated message types of a program by key. `rank` is the evidence behind the
   compiler's rule that no type contains itself without a slice in between.
   */
  datatype GeneratedTypes = GeneratedTypes(messages: map<string, seq<FieldDefinition>>, rank: map<string, nat>) {
    function GoTypes(): MessageTypes {
      MessageTypes(map key <- messages :: GoTys(messages[key]), rank)
    }

    predicate Compiles() {
      GoTypes().FiniteSize()
    }

    function Fields(key: string): seq<FieldDefinition> {
      if key in messages then messages[key] else []
    }
  }

  type Schema = s: GeneratedTypes | s.Compiles() witness GeneratedTypes(map[], map[])

  function GoWire(s: Schema): Wire {
    Wire(Little, s.GoTypes())
  }

  function GoReader(s: Schema, known: set<string>): Codec {
    Codec(GoWire(s), GuardedGo(known))
  }

  lemma FieldsOfKey(s: GeneratedTypes, key: string)
    ensures s.GoTypes().Fields(key) == GoTys(s.Fields(key))
  {
  }

  // Such a field is a Go array, and the emitted decoder assigns a slice to it: the package of
  // the message does not compile.
  predicate IsFixedStringArray(f: FieldDefinition) {
    f.kind == String && f.shape.Fixed?
  }

  predicate NoFixedStringArrays(s: Schema) {
    forall key <- s.messages :: forall f <- s.messages[key] :: !IsFixedStringArray(f)
  }
}
