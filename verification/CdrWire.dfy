/**
 The wire level of CDR: bytes, byte order, alignment, and the position-free
 form of an encoding.

 Every CDR encoding is a list of atoms. An atom is a run of bytes together with
 the boundary it must start on. A list of atoms says nothing about where it is
 written; `Encode` places it at a position and inserts the padding.
 */
module CdrWire {

  type Byte = b: nat | b < 256
  type Bytes = seq<Byte>

  // The padding array of the writer holds eight zeros, so these are all the boundaries there are.
  type Boundary = a: nat | a == 1 || a == 2 || a == 4 || a == 8 witness 1

  datatype ByteOrder = Little | Big

  const TWO_TO_THE_32: nat := 0x1_0000_0000

  // ----- numbers as bytes ---------------------------------------------------

  function Power256(n: nat): (r: nat)
    ensures r > 0
  {
    if n == 0 then 1 else 256 * Power256(n - 1)
  }

  function LittleBytes(v: nat, n: nat): (r: Bytes)
    ensures |r| == n
  {
    if n == 0 then [] else [v % 256] + LittleBytes(v / 256, n - 1)
  }

  function LittleValue(s: Bytes): (r: nat)
    ensures r < Power256(|s|)
  {
    if s == [] then 0 else s[0] + 256 * LittleValue(s[1..])
  }

  function Reverse(s: Bytes): (r: Bytes)
    ensures |r| == |s|
    ensures forall i | 0 <= i < |s| :: r[i] == s[|s| - 1 - i]
  {
    if s == [] then [] else Reverse(s[1..]) + [s[0]]
  }

  function NumberBytes(order: ByteOrder, v: nat, n: nat): (r: Bytes)
    ensures |r| == n
  {
    if order.Little? then LittleBytes(v, n) else Reverse(LittleBytes(v, n))
  }

  function NumberValue(order: ByteOrder, s: Bytes): (r: nat)
    ensures r < Power256(|s|)
  {
    if order.Little? then LittleValue(s) else LittleValue(Reverse(s))
  }

  lemma {:induction false} LittleRoundTrip(v: nat, n: nat)
    requires v < Power256(n)
    ensures LittleValue(LittleBytes(v, n)) == v
  {
    if n > 0 {
      LittleRoundTrip(v / 256, n - 1);
      assert LittleBytes(v, n)[1..] == LittleBytes(v / 256, n - 1);
    }
  }

  // A number that fits in n bytes survives the trip through either byte order.
  lemma NumberRoundTrip(order: ByteOrder, v: nat, n: nat)
    requires v < Power256(n)
    ensures NumberValue(order, NumberBytes(order, v, n)) == v
  {
    LittleRoundTrip(v, n);
    var b := LittleBytes(v, n);
    assert Reverse(Reverse(b)) == b;
  }

  lemma Power256Of4()
    ensures Power256(4) == TWO_TO_THE_32
  {
    assert Power256(2) == 0x1_0000;
  }

  // The number whose bytes are all one: it looks the same in both orders.
  function Repunit(n: nat): nat {
    if n == 0 then 0 else 1 + 256 * Repunit(n - 1)
  }

  lemma {:induction false} RepunitBytes(n: nat)
    ensures Repunit(n) < Power256(n)
    ensures forall i | 0 <= i < n :: LittleBytes(Repunit(n), n)[i] == 1
    ensures forall order :: NumberBytes(order, Repunit(n), n) == LittleBytes(Repunit(n), n)
  {
    var bytes := LittleBytes(Repunit(n), n);
    if n > 0 {
      RepunitBytes(n - 1);
      assert Repunit(n) % 256 == 1 && Repunit(n) / 256 == Repunit(n - 1);
      assert bytes == [1] + LittleBytes(Repunit(n - 1), n - 1);
    }
    AllOnesReversed(bytes);
  }

  lemma AllOnesReversed(s: Bytes)
    requires forall i | 0 <= i < |s| :: s[i] == 1
    ensures Reverse(s) == s
  {
  }

  // ----- alignment ----------------------------------------------------------

  function Padding(pos: nat, align: Boundary): (r: nat)
    ensures r < align
  {
    if pos % align == 0 then 0 else align - pos % align
  }

  lemma PaddingAligns(pos: nat, align: Boundary)
    ensures (pos + Padding(pos, align)) % align == 0
    ensures Padding(pos, align) == 0 <==> pos % align == 0
  {
    if align == 8 {
    } else if align == 4 {
    } else if align == 2 {
    }
  }

  // No aligned position is skipped.
  lemma PaddingIsLeast(pos: nat, align: Boundary, q: nat)
    requires pos <= q && q % align == 0
    ensures pos + Padding(pos, align) <= q
  {
    if align == 8 {
    } else if align == 4 {
    } else if align == 2 {
    }
  }

  lemma PaddingIsPeriodic(pos: nat, k: nat, align: Boundary)
    ensures Padding(pos + 8 * k, align) == Padding(pos, align)
  {
    RemainderIsPeriodic(pos, k, align);
  }

  lemma {:induction false} RemainderIsPeriodic(pos: nat, k: nat, align: Boundary)
    ensures (pos + 8 * k) % align == pos % align
  {
    if k > 0 {
      RemainderIsPeriodic(pos, k - 1, align);
      EightIsAligned(pos + 8 * (k - 1), align);
    }
  }

  lemma EightIsAligned(q: nat, align: Boundary)
    ensures (q + 8) % align == q % align
  {
    if align == 8 {
    } else if align == 4 {
    } else if align == 2 {
    }
  }

  function Zeros(n: nat): (r: Bytes)
    ensures |r| == n && forall i | 0 <= i < n :: r[i] == 0
  {
    seq(n, i => 0)
  }

  // ----- atoms --------------------------------------------------------------

  datatype Atom = Atom(align: Boundary, bytes: Bytes)

  function Word(order: ByteOrder, v: nat, n: Boundary): Atom {
    Atom(n, NumberBytes(order, v, n))
  }

  // Where the bytes of a single atom start when it is placed at pos.
  function Start(pos: nat, a: Atom): nat {
    pos + Padding(pos, a.align)
  }

  // The position after a list of atoms placed at pos.
  function End(pos: nat, atoms: seq<Atom>): (r: nat)
    ensures pos <= r
    decreases atoms
  {
    if atoms == [] then pos else End(Start(pos, atoms[0]) + |atoms[0].bytes|, atoms[1..])
  }

  // The bytes of a list of atoms placed at pos, padding included.
  function Encode(pos: nat, atoms: seq<Atom>): (r: Bytes)
    ensures |r| == End(pos, atoms) - pos
    decreases atoms
  {
    if atoms == [] then []
    else
      Zeros(Padding(pos, atoms[0].align))
      + (atoms[0].bytes + Encode(Start(pos, atoms[0]) + |atoms[0].bytes|, atoms[1..]))
  }

  lemma {:induction false} EncodeConcat(pos: nat, a: seq<Atom>, b: seq<Atom>)
    ensures End(pos, a + b) == End(End(pos, a), b)
    ensures Encode(pos, a + b) == Encode(pos, a) + Encode(End(pos, a), b)
    decreases a
  {
    if a == [] {
      assert a + b == b;
    } else {
      hide Zeros, Padding;
      var next := Start(pos, a[0]) + |a[0].bytes|;
      assert (a + b)[1..] == a[1..] + b;
      EncodeConcat(next, a[1..], b);
      var head, tail, rest := Zeros(Start(pos, a[0]) - pos), Encode(next, a[1..]), Encode(End(next, a[1..]), b);
      Associative(a[0].bytes, tail, rest);
      Associative(head, a[0].bytes + tail, rest);
    }
  }

  lemma Associative(a: Bytes, b: Bytes, c: Bytes)
    ensures (a + b) + c == a + (b + c)
  {
  }

  // Moving an encoding by a multiple of eight moves its end and changes no byte.
  lemma {:induction false} EncodeIsPeriodic(pos: nat, k: nat, atoms: seq<Atom>)
    ensures End(pos + 8 * k, atoms) == End(pos, atoms) + 8 * k
    ensures Encode(pos + 8 * k, atoms) == Encode(pos, atoms)
    decreases atoms
  {
    if atoms != [] {
      PaddingIsPeriodic(pos, k, atoms[0].align);
      EncodeIsPeriodic(Start(pos, atoms[0]) + |atoms[0].bytes|, k, atoms[1..]);
    }
  }

  // The data holds the atoms at pos. Padding bytes may be anything.
  predicate Carries(data: Bytes, pos: nat, atoms: seq<Atom>)
    decreases atoms
  {
    atoms == [] ||
    (var p := Start(pos, atoms[0]);
     var q := p + |atoms[0].bytes|;
     && q <= |data|
     && data[p..q] == atoms[0].bytes
     && Carries(data, q, atoms[1..]))
  }

  lemma {:induction false} CarriesConcat(data: Bytes, pos: nat, a: seq<Atom>, b: seq<Atom>)
    ensures Carries(data, pos, a + b) <==> Carries(data, pos, a) && Carries(data, End(pos, a), b)
    decreases a
  {
    if a == [] {
      assert a + b == b;
    } else {
      assert (a + b)[1..] == a[1..] + b;
      CarriesConcat(data, Start(pos, a[0]) + |a[0].bytes|, a[1..], b);
    }
  }

  lemma {:induction false} CarriesEnd(data: Bytes, pos: nat, atoms: seq<Atom>)
    requires pos <= |data| && Carries(data, pos, atoms)
    ensures End(pos, atoms) <= |data|
    decreases atoms
  {
    if atoms != [] {
      CarriesEnd(data, Start(pos, atoms[0]) + |atoms[0].bytes|, atoms[1..]);
    }
  }

  lemma SplitInThree(data: Bytes, from: nat, to: nat, a: Bytes, b: Bytes, c: Bytes)
    requires from <= to <= |data| && data[from..to] == a + (b + c)
    ensures var p := from + |a|; var q := p + |b|; data[p..q] == b && data[q..to] == c
  {
    var all := data[from..to];
    var p := from + |a|;
    var q := p + |b|;
    assert all[|a|..] == b + c;
    assert all[|a|..][..|b|] == b && all[|a|..][|b|..] == c;
    assert data[p..q] == all[|a|..][..|b|] && data[q..to] == all[|a|..][|b|..];
  }

  // Data that holds what the writer appends at pos carries the atoms.
  lemma {:induction false} EncodeCarries(data: Bytes, pos: nat, atoms: seq<Atom>)
    requires End(pos, atoms) <= |data| && data[pos..End(pos, atoms)] == Encode(pos, atoms)
    ensures Carries(data, pos, atoms)
    decreases atoms
  {
    if atoms != [] {
      var a, p := atoms[0], Start(pos, atoms[0]);
      var q := p + |a.bytes|;
      SplitInThree(data, pos, End(pos, atoms), Zeros(p - pos), a.bytes, Encode(q, atoms[1..]));
      EncodeCarries(data, q, atoms[1..]);
    }
  }

  // ----- appending to a buffer -------------------------------------------------

  // The bytes of an atom list behind buf0, and the offset after it.
  predicate Appended(buf0: Bytes, offset0: nat, atoms: seq<Atom>, buf: Bytes, offset: nat) {
    buf == buf0 + Encode(offset0, atoms) && offset == End(offset0, atoms)
  }

  lemma AppendedAfter(
      buf0: Bytes, offset0: nat, a: seq<Atom>, buf1: Bytes, offset1: nat,
      b: seq<Atom>, buf2: Bytes, offset2: nat)
    requires Appended(buf0, offset0, a, buf1, offset1)
    requires Appended(buf1, offset1, b, buf2, offset2)
    ensures Appended(buf0, offset0, a + b, buf2, offset2)
  {
    hide Encode, End;
    EncodeConcat(offset0, a, b);
    Associative(buf0, Encode(offset0, a), Encode(offset1, b));
  }

  // Of all the atoms meant for buf0, `rest` is still missing from buf.
  predicate StillToAppend(
      buf0: Bytes, offset0: nat, all: seq<Atom>, buf: Bytes, offset: nat, rest: seq<Atom>)
  {
    buf + Encode(offset, rest) == buf0 + Encode(offset0, all) && End(offset, rest) == End(offset0, all)
  }

  lemma AppendMore(
      buf0: Bytes, offset0: nat, all: seq<Atom>, buf1: Bytes, offset1: nat,
      head: seq<Atom>, tail: seq<Atom>, buf2: Bytes, offset2: nat)
    requires StillToAppend(buf0, offset0, all, buf1, offset1, head + tail)
    requires Appended(buf1, offset1, head, buf2, offset2)
    ensures StillToAppend(buf0, offset0, all, buf2, offset2, tail)
  {
    hide Encode, End;
    EncodeConcat(offset1, head, tail);
    Associative(buf1, Encode(offset1, head), Encode(offset2, tail));
  }

  lemma AllAppended(buf0: Bytes, offset0: nat, all: seq<Atom>, buf: Bytes, offset: nat)
    requires StillToAppend(buf0, offset0, all, buf, offset, [])
    ensures Appended(buf0, offset0, all, buf, offset) && |buf| - |buf0| == offset - offset0
  {
    assert buf + [] == buf;
  }

  lemma NothingAppended(buf0: Bytes, offset0: nat, all: seq<Atom>)
    ensures StillToAppend(buf0, offset0, all, buf0, offset0, all)
  {
  }
}
