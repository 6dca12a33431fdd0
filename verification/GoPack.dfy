/**
 The emitted encoder. Each method is the code the generator emits for one step,
 with the schema as a parameter: it grows `buf`, advances `offset`, and takes its
 alignment from `offset` alone.
 */
module GoPack {
  import opened CdrWire
  import opened CdrLayout
  import opened CdrTypes
  import opened CdrBulk
  import opened GoSchema

  method PackAlign(buf0: Bytes, offset0: nat, align: Boundary) returns (buf: Bytes, offset: nat)
    ensures buf == buf0 + Zeros(Padding(offset0, align)) && offset == offset0 + Padding(offset0, align)
  {
    buf, offset := buf0, offset0;
    if align > 1 {
      var pad := (align - offset % align) % align;
      if pad > 0 {
        buf := buf + Zeros(pad);
        offset := offset + pad;
      }
    }
  }

  method PackWord(buf0: Bytes, offset0: nat, v: nat, n: Boundary) returns (buf: Bytes, offset: nat)
    ensures Appended(buf0, offset0, [Word(Little, v, n)], buf, offset)
  {
    buf, offset := PackAlign(buf0, offset0, n);
    buf := buf + LittleBytes(v, n);
    offset := offset + n;
    assert [Word(Little, v, n)][1..] == [];
  }

  // uint32(n): the low 32 bits of a length.
  method PackLength(s: Schema, buf0: Bytes, offset0: nat, n: nat) returns (buf: Bytes, offset: nat)
    ensures Appended(buf0, offset0, [LengthWord(GoWire(s), n)], buf, offset)
  {
    buf, offset := PackWord(buf0, offset0, n % TWO_TO_THE_32, 4);
  }

  method PackString(s: Schema, chars: Bytes, buf0: Bytes, offset0: nat) returns (buf: Bytes, offset: nat)
    ensures Appended(buf0, offset0, Flat(GoWire(s), VString(chars), TString), buf, offset)
  {
    var buf1, offset1 := PackLength(s, buf0, offset0, |chars| + 1);
    buf := buf1 + chars;
    offset := offset1 + |chars|;
    buf := buf + [0];
    offset := offset + 1;
    var body := [Atom(1, chars + [0])];
    assert body[1..] == [];
    assert Zeros(0) == [];
    assert buf == buf1 + (chars + [0]);
    assert Appended(buf1, offset1, body, buf, offset);
    AppendedAfter(buf0, offset0, [LengthWord(GoWire(s), |chars| + 1)], buf1, offset1, body, buf, offset);
  }

  method PackElement(s: Schema, kind: Kind, v: Val, buf0: Bytes, offset0: nat) returns (buf: Bytes, offset: nat)
    requires HasType(s.GoTypes(), v, ElemTy(kind))
    ensures Appended(buf0, offset0, Flat(GoWire(s), v, ElemTy(kind)), buf, offset)
    decreases v, 1
  {
    hide Appended, FlatFields, HaveTypes, Power256;
    match kind
    case Primitive(prim) =>
      if prim == Bool {
        buf, offset := PackWord(buf0, offset0, if v.bits != 0 then 1 else 0, 1);
      } else {
        buf, offset := PackWord(buf0, offset0, v.bits, Width(prim));
      }
    case String => buf, offset := PackString(s, v.chars, buf0, offset0);
    case Time | Duration =>
      assert GoTys(TIME_FIELDS) == TIME.fields;
      buf, offset := PackToRawAt(s, TIME_FIELDS, v.items, buf0, offset0);
    case Custom(package, name) =>
      FieldsOfKey(s, MessageKey(package, name));
      buf, offset := PackToRawAt(s, s.Fields(MessageKey(package, name)), v.items, buf0, offset0);
  }

  method PackElements(s: Schema, kind: Kind, vs: seq<Val>, buf0: Bytes, offset0: nat)
    returns (buf: Bytes, offset: nat)
    requires AllHaveType(s.GoTypes(), vs, ElemTy(kind))
    ensures Appended(buf0, offset0, FlatList(GoWire(s), vs, ElemTy(kind)), buf, offset)
    decreases vs, 0
  {
    hide HasType, Flat, Appended, StillToAppend;
    if kind == Primitive(U8) {
      buf, offset := PackBytes(s, vs, buf0, offset0);
      return;
    }
    buf, offset := buf0, offset0;
    ghost var w, elem := GoWire(s), ElemTy(kind);
    assert vs[0..] == vs;
    NothingAppended(buf0, offset0, FlatList(w, vs, elem));
    for i := 0 to |vs|
      invariant StillToAppend(buf0, offset0, FlatList(w, vs, elem), buf, offset, FlatList(w, vs[i..], elem))
    {
      ghost var head, tail := Flat(w, vs[i], elem), FlatList(w, vs[i + 1..], elem);
      assert vs[i..][1..] == vs[i + 1..];
      assert FlatList(w, vs[i..], elem) == head + tail;
      ghost var buf1, offset1 := buf, offset;
      buf, offset := PackElement(s, kind, vs[i], buf, offset);
      AppendMore(buf0, offset0, FlatList(w, vs, elem), buf1, offset1, head, tail, buf, offset);
    }
    AllAppended(buf0, offset0, FlatList(w, vs, elem), buf, offset);
  }

  // `append(buf, m.F...)`: a []uint8 is its own memory and is copied in one go.
  method PackBytes(s: Schema, vs: seq<Val>, buf0: Bytes, offset0: nat) returns (buf: Bytes, offset: nat)
    requires AllHaveType(s.GoTypes(), vs, TPrim(U8))
    ensures Appended(buf0, offset0, FlatList(GoWire(s), vs, TPrim(U8)), buf, offset)
  {
    hide HasType;
    var bytes := Octets(s.GoTypes(), vs);
    buf, offset := buf0 + bytes, offset0 + |bytes|;
    OctetEncoding(GoWire(s), bytes, offset0);
    assert OctetList(bytes) == vs;
  }

  // The memory of a []uint8.
  function Octets(p: Program, vs: seq<Val>): (r: Bytes)
    requires AllHaveType(p, vs, TPrim(U8))
    ensures |r| == |vs| && forall i | 0 <= i < |vs| :: vs[i] == VPrim(r[i])
  {
    OctetsHaveBytes(p, vs);
    seq(|vs|, i requires 0 <= i < |vs| && vs[i].VPrim? && vs[i].bits < 256 => vs[i].bits)
  }

  lemma OctetsHaveBytes(p: Program, vs: seq<Val>)
    requires AllHaveType(p, vs, TPrim(U8))
    ensures forall i | 0 <= i < |vs| :: vs[i].VPrim? && vs[i].bits < 256
  {
    assert Power256(1) == 256;
  }

  method PackField(s: Schema, f: FieldDefinition, v: Val, buf0: Bytes, offset0: nat)
    returns (buf: Bytes, offset: nat)
    requires HasType(s.GoTypes(), v, GoTy(f))
    ensures Appended(buf0, offset0, Flat(GoWire(s), v, GoTy(f)), buf, offset)
    decreases v, 2
  {
    if !f.IsArray() {
      buf, offset := PackElement(s, f.kind, v, buf0, offset0);
    } else if f.kind == String || f.IsSequence() {
      var buf1, offset1 := PackLength(s, buf0, offset0, |v.items|);
      buf, offset := PackElements(s, f.kind, v.items, buf1, offset1);
      AppendedAfter(buf0, offset0, [LengthWord(GoWire(s), |v.items|)], buf1, offset1,
                    FlatList(GoWire(s), v.items, ElemTy(f.kind)), buf, offset);
    } else {
      buf, offset := PackElements(s, f.kind, v.items, buf0, offset0);
    }
  }

  method PackToRawAt(s: Schema, fields: seq<FieldDefinition>, vs: seq<Val>, buf0: Bytes, offset0: nat)
    returns (buf: Bytes, offset: nat)
    requires HaveTypes(s.GoTypes(), vs, GoTys(fields))
    ensures Appended(buf0, offset0, FlatFields(GoWire(s), vs, GoTys(fields)), buf, offset)
    ensures |buf| - |buf0| == offset - offset0
    decreases vs, 0
  {
    hide HasType, Flat, Appended, StillToAppend;
    buf, offset := buf0, offset0;
    ghost var w, tys := GoWire(s), GoTys(fields);
    assert vs[0..] == vs && tys[0..] == tys;
    NothingAppended(buf0, offset0, FlatFields(w, vs, tys));
    for i := 0 to |fields|
      invariant StillToAppend(buf0, offset0, FlatFields(w, vs, tys), buf, offset, FlatFields(w, vs[i..], tys[i..]))
    {
      ghost var head, tail := Flat(w, vs[i], tys[i]), FlatFields(w, vs[i + 1..], tys[i + 1..]);
      assert vs[i..][1..] == vs[i + 1..] && tys[i..][1..] == tys[i + 1..];
      assert FlatFields(w, vs[i..], tys[i..]) == head + tail;
      ghost var buf1, offset1 := buf, offset;
      buf, offset := PackField(s, fields[i], vs[i], buf, offset);
      AppendMore(buf0, offset0, FlatFields(w, vs, tys), buf1, offset1, head, tail, buf, offset);
    }
    AllAppended(buf0, offset0, FlatFields(w, vs, tys), buf, offset);
  }

  // The public entry: the CDR_LE encapsulation header and the body at offset 0.
  method SerializeCDR(s: Schema, fields: seq<FieldDefinition>, vs: seq<Val>) returns (buf: Bytes)
    requires HaveTypes(s.GoTypes(), vs, GoTys(fields))
    ensures buf == [0x00, 0x01, 0x00, 0x00] + Encode(0, FlatFields(GoWire(s), vs, GoTys(fields)))
  {
    var offset;
    buf, offset := PackToRawAt(s, fields, vs, [0x00, 0x01, 0x00, 0x00], 0);
  }
}
