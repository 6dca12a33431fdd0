/**
 What the Rust reader rejects, and which error it reports, apart from how it reads.
 */
module CdrErrors {
  import opened CdrWire
  import opened CdrLayout
  import opened CdrTypes
  import opened CdrRoundTrip
  import opened CdrAcceptance
  import opened Utf8

  // Every 32-bit word in the data is the one that is read.
  lemma WordExactly(c: Codec, v: nat, n: Boundary, data: Bytes, pos: nat, e: nat)
    ensures DecodeWord(c, data, pos, n) == Ok(v, e) <==>
      v < Power256(n) && Lies(data, pos, [Word(c.wire.order, v, n)], e)
  {
    hide Lies, Word, Power256, DecodeWord;
    if DecodeWord(c, data, pos, n).Ok? {
      WordLies(c, data, pos, n);
    }
    if v < Power256(n) && Lies(data, pos, [Word(c.wire.order, v, n)], e) {
      WordIsRead(c, v, n, data, pos, e);
    }
  }

  /**
   The Rust reader reports a bool over 1, or a char that is no scalar value, exactly when that
   word is there, and the end of the input exactly when no word is.
   */
  lemma NumberErrors(c: Codec, prim: Prim, data: Bytes, pos: nat)
    requires c.lang.Rust?
    ensures forall v: nat :: DecodePrim(c, prim, data, pos) == Err(InvalidBool(v)) <==>
      prim == Bool && 1 < v < 256 && exists e :: Lies(data, pos, [Word(c.wire.order, v, 1)], e)
    ensures forall v: nat :: DecodePrim(c, prim, data, pos) == Err(InvalidChar(v)) <==>
      prim == Char && v < TWO_TO_THE_32 && !IsScalar(v) && exists e :: Lies(data, pos, [Word(c.wire.order, v, 4)], e)
    ensures DecodePrim(c, prim, data, pos) == Err(UnexpectedEof) <==>
      forall v: nat, e: nat :: v < Power256(Width(prim)) ==> !Lies(data, pos, [Word(c.wire.order, v, Width(prim))], e)
  {
    hide Lies, Word, Power256, DecodeWord, IsScalar;
    OneByte();
    Power256Of4();
    var w := DecodeWord(c, data, pos, Width(prim));
    OnlyTheEnd(c, data, pos, Width(prim));
    forall v: nat, e: nat ensures w == Ok(v, e) <==>
      v < Power256(Width(prim)) && Lies(data, pos, [Word(c.wire.order, v, Width(prim))], e)
    {
      WordExactly(c, v, Width(prim), data, pos, e);
    }
  }

  lemma OnlyTheEnd(c: Codec, data: Bytes, pos: nat, n: Boundary)
    ensures DecodeWord(c, data, pos, n).Err? ==> DecodeWord(c, data, pos, n) == Err(UnexpectedEof)
  {
  }

  // A length and the bytes it counts.
  ghost predicate RawIsAt(c: Codec, raw: Bytes, data: Bytes, pos: nat) {
    exists atoms, e :: SpellsRaw(c, raw, atoms) && Lies(data, pos, atoms, e)
  }

  lemma RawExactly(c: Codec, raw: Bytes, data: Bytes, pos: nat)
    requires pos <= |data|
    ensures RawIsAt(c, raw, data, pos) <==>
      var w := DecodeWord(c, data, pos, 4);
      w.Ok? && w.value == |raw| && w.pos + |raw| <= |data| && data[w.pos..w.pos + |raw|] == raw
  {
    hide Lies, DecodeWord, SpellsRaw;
    var w := DecodeWord(c, data, pos, 4);
    if RawIsAt(c, raw, data, pos) {
      var atoms, e :| SpellsRaw(c, raw, atoms) && Lies(data, pos, atoms, e);
      var q := RawIsRead(c, raw, atoms, data, pos, e);
    }
    if w.Ok? && w.value == |raw| && w.pos + |raw| <= |data| && data[w.pos..w.pos + |raw|] == raw {
      RawIsThere(c, data, pos);
    }
  }

  /**
   A string is too short exactly when its bytes are not all there, and otherwise ill-formed
   exactly when they are no UTF-8, the terminator included.
   */
  lemma StringErrors(c: Codec, data: Bytes, pos: nat)
    requires c.lang.Rust? && pos <= |data|
    ensures DecodeString(c, data, pos) == Err(Utf8) <==> exists raw :: RawIsAt(c, raw, data, pos) && !IsUtf8(raw)
    ensures DecodeString(c, data, pos) == Err(UnexpectedEof) <==> forall raw :: !RawIsAt(c, raw, data, pos)
    ensures DecodeString(c, data, pos).Err? ==> DecodeString(c, data, pos).error in {UnexpectedEof, Utf8}
  {
    hide RawIsAt, DecodeWord, IsUtf8;
    OnlyTheEnd(c, data, pos, 4);
    OnlyRaw(c, data, pos);
    var w := DecodeWord(c, data, pos, 4);
    if w.Ok? && w.pos + w.value <= |data| {
      var raw := data[w.pos..w.pos + w.value];
      assert RawIsAt(c, raw, data, pos);
      if raw == [] {
        EmptyIsWellFormed();
      } else if raw[|raw| - 1] == 0 {
        assert raw == raw[..|raw| - 1] + [0];
        TerminatorIsWellFormed(raw[..|raw| - 1]);
      }
    }
  }

  lemma OnlyRaw(c: Codec, data: Bytes, pos: nat)
    requires pos <= |data|
    ensures var w := DecodeWord(c, data, pos, 4);
      forall raw :: RawIsAt(c, raw, data, pos) <==>
        w.Ok? && w.pos + w.value <= |data| && raw == data[w.pos..w.pos + w.value]
  {
    hide RawIsAt, DecodeWord;
    forall raw
      ensures var w := DecodeWord(c, data, pos, 4);
        RawIsAt(c, raw, data, pos) <==>
          w.Ok? && w.pos + w.value <= |data| && raw == data[w.pos..w.pos + w.value]
    {
      RawExactly(c, raw, data, pos);
    }
  }

  lemma EmptyIsWellFormed()
    ensures IsUtf8([])
  {
  }

  lemma RawIsThere(c: Codec, data: Bytes, pos: nat)
    requires DecodeWord(c, data, pos, 4).Ok?
    requires var w := DecodeWord(c, data, pos, 4); w.pos + w.value <= |data|
    ensures var w := DecodeWord(c, data, pos, 4);
      exists atoms, e :: SpellsRaw(c, data[w.pos..w.pos + w.value], atoms) && Lies(data, pos, atoms, e)
  {
    hide Lies, DecodeWord, LengthWord;
    var (n, q) := DecodeWord(c, data, pos, 4).Extract();
    LengthLies(c, data, pos);
    RawLies(data, q, n);
    var head, body := [LengthWord(c.wire, n)], [Atom(1, data[q..q + n])];
    LiesConcat(data, pos, head, q, body, q + n);
    assert SpellsRaw(c, data[q..q + n], head + body);
  }

  // ----- counts and tags ------------------------------------------------------------------

  // A count is refused exactly when it is there and over one hundred million.
  lemma LengthErrors(c: Codec, elem: Ty, data: Bytes, pos: nat)
    requires c.lang.Rust?
    ensures forall n: nat :: DecodeLength(c, elem, data, pos) == Err(SequenceTooLong(n)) <==>
      100_000_000 < n < TWO_TO_THE_32 && exists e :: Lies(data, pos, [Word(c.wire.order, n, 4)], e)
  {
    hide Lies, Word, Power256, DecodeWord;
    Power256Of4();
    OnlyTheEnd(c, data, pos, 4);
    forall n: nat, e: nat
      ensures DecodeWord(c, data, pos, 4) == Ok(n, e) <==>
        n < TWO_TO_THE_32 && Lies(data, pos, [Word(c.wire.order, n, 4)], e)
    {
      WordExactly(c, n, 4, data, pos, e);
    }
  }

  // A tag is a 32-bit word, 0 or 1 for an option and an index into the variants for an enum.
  lemma TagErrors(c: Codec, inner: Ty, variants: seq<Ty>, tag: nat, data: Bytes, pos: nat, e: nat)
    requires pos <= |data| && tag < TWO_TO_THE_32 && Lies(data, pos, [Word(c.wire.order, tag, 4)], e)
    ensures tag == 0 ==> Decode(c, TOption(inner), data, pos) == Ok(VNone, e)
    ensures tag > 1 ==> Decode(c, TOption(inner), data, pos) == Err(InvalidOptionTag(tag))
    ensures tag >= |variants| ==> Decode(c, TEnum(variants), data, pos) == Err(UnknownVariant(tag))
  {
    hide Lies, Word, Power256, DecodeWord;
    Power256Of4();
    WordExactly(c, tag, 4, data, pos, e);
  }
}
