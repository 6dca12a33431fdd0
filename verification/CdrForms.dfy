/**
 The bytes of each primitive and each shape, written out digit by digit.
 */
module CdrForms {
  import opened CdrWire
  import opened CdrLayout
  import opened CdrTypes
  import opened CdrBulk

  function Written(w: Wire, v: Val, t: Ty): Bytes {
    Encode(0, Flat(w, v, t))
  }

  // ----- numbers ------------------------------------------------------------------

  lemma WordAtTheStart(w: Wire, v: nat, prim: Prim)
    ensures Written(w, VPrim(v), TPrim(prim)) == NumberBytes(w.order, v, Width(prim))
  {
    hide NumberBytes;
    OneAtom(0, Word(w.order, v, Width(prim)));
    assert Zeros(0) + NumberBytes(w.order, v, Width(prim)) == NumberBytes(w.order, v, Width(prim));
  }

  lemma PutByte(low: Byte, high: nat, n: nat)
    ensures LittleBytes(low + 256 * high, n + 1) == [low] + LittleBytes(high, n)
  {
    assert (low + 256 * high) % 256 == low && (low + 256 * high) / 256 == high;
  }

  function Number(digits: Bytes): nat {
    if digits == [] then 0 else digits[0] + 256 * Number(digits[1..])
  }

  lemma {:induction false} DigitsAreBytes(digits: Bytes)
    ensures LittleBytes(Number(digits), |digits|) == digits
  {
    if digits != [] {
      DigitsAreBytes(digits[1..]);
      PutByte(digits[0], Number(digits[1..]), |digits| - 1);
      assert digits == [digits[0]] + digits[1..];
    }
  }

  function Turned(digits: Bytes): Bytes {
    seq(|digits|, i requires 0 <= i < |digits| => digits[|digits| - 1 - i])
  }

  /**
   A number is written with the lowest byte first, and with the lowest byte last by a
   big-endian writer: one byte for bool and the 8-bit types, two for 16 bits, four for 32
   bits, float and char, eight for 64 bits and double.
   */
  lemma NumbersAreWritten(w: Wire, prim: Prim, digits: Bytes)
    requires |digits| ==
      if prim in {Bool, I8, U8} then 1
      else if prim in {I16, U16} then 2
      else if prim in {I32, U32, F32, Char} then 4
      else 8
    ensures Written(w, VPrim(Number(digits)), TPrim(prim)) ==
      if w.order.Little? then digits else Turned(digits)
  {
    hide LittleBytes, NumberBytes, Number, Written, Width, Reverse;
    Widths(prim);
    WordAtTheStart(w, Number(digits), prim);
    NumberOfDigits(w.order, digits);
  }

  lemma Widths(prim: Prim)
    ensures Width(prim) ==
      if prim in {Bool, I8, U8} then 1
      else if prim in {I16, U16} then 2
      else if prim in {I32, U32, F32, Char} then 4
      else 8
  {
  }

  lemma NumberOfDigits(order: ByteOrder, digits: Bytes)
    ensures NumberBytes(order, Number(digits), |digits|) == if order.Little? then digits else Turned(digits)
  {
    hide LittleBytes, Number, Reverse;
    DigitsAreBytes(digits);
  }

  // ----- shapes ---------------------------------------------------------------------

  // A 32-bit count or tag in front of what it counts or selects.
  lemma PrefixIsWritten(w: Wire, n: Byte, rest: seq<Atom>)
    requires w.order.Little?
    ensures Encode(0, [LengthWord(w, n)] + rest) == [n, 0, 0, 0] + Encode(4, rest)
  {
    PutByte(n, 0, 3);
    PutByte(0, 0, 2);
    PutByte(0, 0, 1);
    PutByte(0, 0, 0);
    assert LittleBytes(n, 4) == [n, 0, 0, 0];
    var word := LengthWord(w, n);
    OneAtom(0, word);
    EncodeConcat(0, [word], rest);
    assert Zeros(0) + [n, 0, 0, 0] == [n, 0, 0, 0];
  }

  // An absent option is 0 and a present one 1.
  lemma OptionsAreWritten(w: Wire, x: Val, t: Ty)
    requires w.order.Little?
    ensures Written(w, VNone, TOption(t)) == [0, 0, 0, 0]
    ensures Written(w, VSome(x), TOption(t)) == [1, 0, 0, 0] + Encode(4, Flat(w, x, t))
  {
    hide Encode, LengthWord;
    PrefixIsWritten(w, 0, []);
    assert [LengthWord(w, 0)] + [] == [LengthWord(w, 0)] && Encode(4, []) == [];
    PrefixIsWritten(w, 1, Flat(w, x, t));
  }

  // A variant of an enum is its tag and its payload.
  lemma VariantsAreWritten(w: Wire, tag: Byte, x: Val, variants: seq<Ty>)
    requires w.order.Little? && tag < |variants|
    ensures Written(w, VEnum(tag, x), TEnum(variants)) == [tag, 0, 0, 0] + Encode(4, Flat(w, x, variants[tag]))
  {
    hide Encode, LengthWord;
    PrefixIsWritten(w, tag, Flat(w, x, variants[tag]));
  }

  // Sequences are counted by element; arrays and structs have no prefix.
  lemma ListsAreWritten(w: Wire, items: seq<Val>, t: Ty, ts: seq<Ty>)
    requires w.order.Little? && |items| < 256
    ensures Written(w, VList(items), TSeq(t)) == [|items|, 0, 0, 0] + Encode(4, FlatList(w, items, t))
    ensures Written(w, VList(items), TArray(|items|, t)) == Encode(0, FlatList(w, items, t))
    ensures Written(w, VList(items), TTuple(ts)) == Encode(0, FlatFields(w, items, ts))
  {
    hide Encode, LengthWord, FlatList, FlatFields;
    PrefixIsWritten(w, |items|, FlatList(w, items, t));
  }

  // Strings are counted with their terminator.
  lemma StringsAreWritten(w: Wire, s: Bytes)
    requires w.order.Little? && |s| < 255
    ensures Written(w, VString(s), TString) == [|s| + 1, 0, 0, 0] + (s + [0])
  {
    hide LengthWord, Encode;
    var body := Atom(1, s + [0]);
    assert Flat(w, VString(s), TString) == [LengthWord(w, |s| + 1)] + [body];
    PrefixIsWritten(w, |s| + 1, [body]);
    OneAtom(4, body);
    assert Zeros(0) + (s + [0]) == s + [0];
  }

  lemma TwoFields(w: Wire, x: Val, y: Val, t: Ty, u: Ty)
    ensures FlatFields(w, [x, y], [t, u]) == Flat(w, x, t) + Flat(w, y, u)
  {
    hide Flat;
    OneField(w, y, u);
    assert [x, y][1..] == [y] && [t, u][1..] == [u];
  }

  lemma OneField(w: Wire, y: Val, u: Ty)
    ensures FlatFields(w, [y], [u]) == Flat(w, y, u)
  {
    hide Flat;
    assert [y][1..] == [] && [u][1..] == [];
    assert FlatFields(w, [], []) == [];
  }

  lemma OneDigit(a: Byte)
    ensures Number([a]) == a
  {
  }

  // An octet and a 32-bit number: three bytes of padding between them, all zero.
  lemma PaddingIsWritten(w: Wire, a: Byte, digits: Bytes)
    requires w.order.Little? && |digits| == 4
    ensures Written(w, VList([VPrim(a), VPrim(Number(digits))]), TTuple([TPrim(U8), TPrim(U32)]))
         == [a, 0, 0, 0] + digits
  {
    hide LittleBytes, Encode, NumberBytes, Number;
    var octet, word := Word(w.order, a, 1), Word(w.order, Number(digits), 4);
    OneDigit(a);
    NumberOfDigits(Little, [a]);
    NumberOfDigits(Little, digits);
    TwoFields(w, VPrim(a), VPrim(Number(digits)), TPrim(U8), TPrim(U32));
    OneAtom(0, octet);
    OneAtom(1, word);
    EncodeConcat(0, [octet], [word]);
    assert Zeros(0) + [a] == [a];
    assert [a] + (Zeros(3) + digits) == [a, 0, 0, 0] + digits;
  }
}
