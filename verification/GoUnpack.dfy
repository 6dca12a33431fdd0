/**
 The emitted decoder, guards included. Each method is the code the generator
 emits for one step, with the schema as a parameter; `offset` only moves forward
 and every index is in range on every input.
 */
module GoUnpack {
  import opened CdrWire
  import opened CdrLayout
  import opened CdrTypes
  import opened CdrRoundTrip
  import opened GoGuards
  import opened GoSchema

  lemma PadIsPadding(offset: nat, n: Boundary)
    ensures (n - offset % n) % n == Padding(offset, n)
    ensures n == 1 ==> Padding(offset, n) == 0
  {
    if n == 8 {
    } else if n == 4 {
    } else if n == 2 {
    }
  }

  // `offset += pad`, the range check, and binary.LittleEndian on what follows.
  method UnpackWord(s: Schema, known: set<string>, n: Boundary, data: Bytes, offset0: nat) returns (r: Decoded<nat>)
    ensures r == DecodeWord(GoReader(s, known), data, offset0, n)
  {
    hide LittleValue, Power256, Padding;
    PadIsPadding(offset0, n);
    var offset := offset0;
    if n > 1 {
      offset := offset + (n - offset % n) % n;
    }
    if offset + n > |data| {
      return Err(UnexpectedEof);
    }
    r := Ok(LittleValue(data[offset..offset + n]), offset + n);
  }

  method UnpackString(s: Schema, known: set<string>, data: Bytes, offset0: nat) returns (r: Decoded<Val>)
    ensures r == DecodeString(GoReader(s, known), data, offset0)
  {
    var word := UnpackWord(s, known, 4, data, offset0);
    if word.Err? {
      return Err(word.error);
    }
    var strLen, offset := word.value, word.pos;
    var str := [];
    if strLen > 0 {
      if offset + strLen > |data| {
        return Err(UnexpectedEof);
      }
      str := data[offset..offset + strLen - 1];
      assert data[offset..offset + strLen][..strLen - 1] == str;
      offset := offset + strLen;
    }
    r := Ok(VString(str), offset);
  }

  method UnpackElement(s: Schema, known: set<string>, kind: Kind, data: Bytes, offset0: nat)
    returns (r: Decoded<Val>)
    requires offset0 <= |data|
    ensures r == Decode(GoReader(s, known), ElemTy(kind), data, offset0)
    decreases |data| - offset0, s.GoTypes().Rank(ElemTy(kind)), ElemTy(kind), 0
  {
    hide DecodeFields, DecodeList;
    match kind
    case Primitive(prim) =>
      var word := UnpackWord(s, known, Width(prim), data, offset0);
      if word.Err? {
        return Err(word.error);
      }
      var bits := if prim == Bool then (if word.value != 0 then 1 else 0) else word.value;
      r := Ok(VPrim(bits), word.pos);
    case String =>
      r := UnpackString(s, known, data, offset0);
    case Time | Duration =>
      assert GoTys(TIME_FIELDS) == TIME.fields;
      var m := UnpackFromRawAt(s, known, TIME_FIELDS, data, offset0);
      r := if m.Ok? then Ok(VList(m.value), m.pos) else Err(m.error);
    case Custom(package, name) =>
      var key := MessageKey(package, name);
      FieldsOfKey(s, key);
      var m := UnpackFromRawAt(s, known, s.Fields(key), data, offset0);
      r := if m.Ok? then Ok(VList(m.value), m.pos) else Err(m.error);
  }

  /**
   The loop over n elements. `need` is the per-element check of a sequence of messages,
   0 where the generator emits none.
   */
  method UnpackElements(s: Schema, known: set<string>, kind: Kind, n: nat, need: nat, data: Bytes, offset0: nat)
    returns (r: Decoded<seq<Val>>)
    requires offset0 <= |data|
    ensures r == DecodeList(GoReader(s, known), ElemTy(kind), n, need, data, offset0)
    decreases |data| - offset0, s.GoTypes().Rank(ElemTy(kind)), ElemTy(kind), n + 1
  {
    ghost var c, elem := GoReader(s, known), ElemTy(kind);
    hide Decode;
    var vs, offset := [], offset0;
    BehindNothing(DecodeList(c, elem, n, need, data, offset0));
    for i := 0 to n
      invariant offset0 <= offset <= |data|
      invariant DecodeList(c, elem, n, need, data, offset0)
             == Behind(vs, DecodeList(c, elem, n - i, need, data, offset))
    {
      if |data| - offset < need {
        return Err(UnexpectedEof);
      }
      var one := UnpackElement(s, known, kind, data, offset);
      if one.Err? {
        return Err(one.error);
      }
      BehindOne(vs, one.value, DecodeList(c, elem, n - i - 1, need, data, one.pos));
      vs, offset := vs + [one.value], one.pos;
    }
    assert vs + [] == vs;
    r := Ok(vs, offset);
  }

  // The reservation is at most (bytes left) / minElem elements.
  lemma ReservationFits(n: nat, minElem: nat, left: nat)
    requires minElem > 0 && n <= left / minElem
    ensures n * minElem <= left
  {
    Times(n, left / minElem, minElem);
  }

  // The constants the generator computes for the checks of one field.
  function LengthCheck(s: Schema, known: set<string>, kind: Kind): nat {
    LengthGuard(GoReader(s, known), ElemTy(kind))
  }

  lemma MessageGuard(c: Codec, elem: Ty)
    requires c.lang.GuardedGo? && elem.TMsg?
    ensures ElementGuard(c, elem) == Min(MinOne(c.wire.program, c.lang.known, {}, elem), MAX_INT32)
  {
    hide MinOne;
  }

  /**
   emitCustomSeqUnpack in front of its loop: the capacity that is reserved, which the bytes
   left bound, and the check emitted before each element.
   */
  method ReserveMessages(s: Schema, known: set<string>, kind: Kind, arrLen: nat, left: nat)
    returns (capHint: nat, need: nat)
    requires kind.Custom?
    ensures need == ElementGuard(GoReader(s, known), ElemTy(kind))
    ensures capHint <= arrLen && capHint * (if need > 0 then need else 1) <= left
  {
    hide MinOne, ElementGuard;
    MessageGuard(GoReader(s, known), ElemTy(kind));
    var minElem := MinOne(s.GoTypes(), known, {}, ElemTy(kind));
    var checked := minElem >= 1;
    if minElem < 1 {
      minElem := 1;
    }
    if minElem > MAX_INT32 {
      minElem := MAX_INT32;
    }
    capHint := arrLen;
    var bound := left / minElem;
    if capHint > bound {
      capHint := bound;
    }
    ReservationFits(capHint, minElem, left);
    need := if checked then minElem else 0;
    assert (if need > 0 then need else 1) == minElem;
  }

  method UnpackSequence(s: Schema, known: set<string>, kind: Kind, data: Bytes, offset0: nat)
    returns (r: Decoded<Val>)
    requires offset0 <= |data|
    ensures r == Decode(GoReader(s, known), TSeq(ElemTy(kind)), data, offset0)
    decreases |data| - offset0, 0, TSeq(ElemTy(kind)), 1
  {
    hide DecodeList, DecodeFields, DecodeWord, MinOne;
    var word := UnpackWord(s, known, 4, data, offset0);
    if word.Err? {
      return Err(word.error);
    }
    var arrLen, offset := word.value, word.pos;
    var need := 0;
    if kind.Custom? {
      var capHint;
      capHint, need := ReserveMessages(s, known, kind, arrLen, |data| - offset);
    } else {
      // emitArrLenCheck
      var minElem := LengthCheck(s, known, kind);
      if arrLen > (|data| - offset) / minElem {
        return Err(SequenceTooLong(arrLen));
      }
    }
    var list := UnpackElements(s, known, kind, arrLen, need, data, offset);
    r := if list.Ok? then Ok(VList(list.value), list.pos) else Err(list.error);
  }

  method UnpackField(s: Schema, known: set<string>, f: FieldDefinition, data: Bytes, offset0: nat)
    returns (r: Decoded<Val>)
    requires offset0 <= |data|
    ensures r == Decode(GoReader(s, known), GoTy(f), data, offset0)
    decreases |data| - offset0, s.GoTypes().Rank(GoTy(f)), GoTy(f), 2
  {
    hide DecodeList, DecodeFields;
    if !f.IsArray() {
      r := UnpackElement(s, known, f.kind, data, offset0);
    } else if f.kind == String || f.IsSequence() {
      r := UnpackSequence(s, known, f.kind, data, offset0);
    } else {
      var list := UnpackElements(s, known, f.kind, f.shape.size, 0, data, offset0);
      r := if list.Ok? then Ok(VList(list.value), list.pos) else Err(list.error);
    }
  }

  method UnpackFromRawAt(s: Schema, known: set<string>, fields: seq<FieldDefinition>, data: Bytes, offset0: nat)
    returns (r: Decoded<seq<Val>>)
    requires offset0 <= |data|
    ensures r == DecodeFields(GoReader(s, known), GoTys(fields), data, offset0)
    decreases |data| - offset0, s.GoTypes().RankAll(GoTys(fields)), GoTys(fields), 0
  {
    ghost var c, tys := GoReader(s, known), GoTys(fields);
    hide Decode;
    var vs, offset := [], offset0;
    assert tys[0..] == tys;
    BehindNothing(DecodeFields(c, tys, data, offset0));
    for i := 0 to |fields|
      invariant offset0 <= offset <= |data|
      invariant DecodeFields(c, tys, data, offset0) == Behind(vs, DecodeFields(c, tys[i..], data, offset))
    {
      RankOfField(c.wire.program, tys, i);
      var one := UnpackField(s, known, fields[i], data, offset);
      assert tys[i..][1..] == tys[i + 1..];
      if one.Err? {
        return Err(one.error);
      }
      BehindOne(vs, one.value, DecodeFields(c, tys[i + 1..], data, one.pos));
      vs, offset := vs + [one.value], one.pos;
    }
    assert vs + [] == vs;
    r := Ok(vs, offset);
  }

  // The public entry: four header bytes are skipped, not checked.
  method DeserializeCDR(s: Schema, known: set<string>, fields: seq<FieldDefinition>, data: Bytes)
    returns (r: Decoded<seq<Val>>)
    ensures r == if |data| < 4 then Err(UnexpectedEof)
                 else DecodeFields(GoReader(s, known), GoTys(fields), data[4..], 0)
  {
    if |data| < 4 {
      return Err(UnexpectedEof);
    }
    r := UnpackFromRawAt(s, known, fields, data[4..], 0);
  }
}
