/**
 The emitted Go length guards change nothing.

 The generator computes a minimum encoded size per message and emits checks that
 reject a sequence before it is allocated. The checks are sound because the
 computed size is a true lower bound on what any accepted element consumes, for
 every index of known messages, cyclic or incomplete, and every set of names the
 analysis is already visiting.
 */
module GoGuards {
  import opened CdrWire
  import opened CdrLayout
  import opened CdrTypes
  import opened CdrRoundTrip

  lemma Times(a: nat, b: nat, k: nat)
    requires a <= b
    ensures a * k <= b * k
  {
  }

  lemma OneMore(n: nat, k: nat)
    ensures (n + 1) * k == k + n * k
  {
  }

  lemma Quotient(n: nat, k: nat, x: nat)
    requires k > 0 && n * k <= x
    ensures n <= x / k
  {
    var q := x / k;
    assert n > q ==> n * k >= (q + 1) * k;
  }

  // ----- the minimum size is a lower bound for every accepted input ----------

  lemma {:induction false} MinOneBoundsDecode(
      c: Codec, known: set<string>, visiting: set<string>, t: Ty, data: Bytes, pos: nat)
    requires pos <= |data| && Decode(c, t, data, pos).Ok?
    ensures pos + MinOne(c.wire.program, known, visiting, t) <= Decode(c, t, data, pos).pos
    decreases |data| - pos, c.wire.program.Rank(t), t, 0
  {
    match t
    case TTuple(fields) => MinTotalBoundsDecode(c, known, visiting, fields, 0, data, pos);
    case TMsg(name) =>
      if name in known && name !in visiting {
        MinTotalBoundsDecode(c, known, visiting + {name}, c.wire.program.Fields(name), 0, data, pos);
      }
    case _ =>
  }

  // The accumulated size grows by no more than the fields consume, cap or no cap.
  lemma {:induction false} MinTotalBoundsDecode(
      c: Codec, known: set<string>, visiting: set<string>, ts: seq<Ty>, total: nat, data: Bytes, pos: nat)
    requires pos <= |data| && DecodeFields(c, ts, data, pos).Ok?
    ensures pos + MinTotal(c.wire.program, known, visiting, ts, total) <= DecodeFields(c, ts, data, pos).pos + total
    decreases |data| - pos, c.wire.program.RankAll(ts), ts, 0
  {
    if ts != [] {
      var t, q := ts[0], Decode(c, ts[0], data, pos).pos;
      if t.TSeq? {
        assert pos + 4 <= q;
        MinTotalBoundsDecode(c, known, visiting, ts[1..], total + 4, data, q);
      } else {
        MinFieldBoundsDecode(c, known, visiting, t, data, pos);
        var sum := total + MinField(c.wire.program, known, visiting, t);
        MinTotalBoundsDecode(c, known, visiting, ts[1..], sum, data, q);
      }
    }
  }

  lemma {:induction false} MinFieldBoundsDecode(
      c: Codec, known: set<string>, visiting: set<string>, t: Ty, data: Bytes, pos: nat)
    requires pos <= |data| && Decode(c, t, data, pos).Ok?
    ensures pos + MinField(c.wire.program, known, visiting, t) <= Decode(c, t, data, pos).pos
    decreases |data| - pos, c.wire.program.Rank(t), t, 1
  {
    if t.TArray? {
      var one := MinOne(c.wire.program, known, visiting, t.elem);
      MinBoundsList(c, known, visiting, t.elem, t.len, 0, data, pos);
      Times(Min(t.len, MAX_MIN_SIZE), t.len, one);
    } else {
      MinOneBoundsDecode(c, known, visiting, t, data, pos);
    }
  }

  lemma {:induction false} MinBoundsList(
      c: Codec, known: set<string>, visiting: set<string>, elem: Ty, n: nat, need: nat, data: Bytes, pos: nat)
    requires pos <= |data| && DecodeList(c, elem, n, need, data, pos).Ok?
    ensures pos + n * MinOne(c.wire.program, known, visiting, elem) <= DecodeList(c, elem, n, need, data, pos).pos
    decreases |data| - pos, c.wire.program.Rank(elem), elem, n + 1
  {
    hide MinOne, Decode;
    if n > 0 {
      var one := MinOne(c.wire.program, known, visiting, elem);
      var q := Decode(c, elem, data, pos).pos;
      MinOneBoundsDecode(c, known, visiting, elem, data, pos);
      MinBoundsList(c, known, visiting, elem, n - 1, need, data, q);
      OneMore(n - 1, one);
    }
  }

  // ----- the minimum size is a lower bound for every encoded value ------------

  // The bytes of an encoding without its padding.
  function Payload(atoms: seq<Atom>): nat {
    if atoms == [] then 0 else |atoms[0].bytes| + Payload(atoms[1..])
  }

  lemma {:induction false} PayloadConcat(a: seq<Atom>, b: seq<Atom>)
    ensures Payload(a + b) == Payload(a) + Payload(b)
  {
    if a == [] {
      assert a + b == b;
    } else {
      assert (a + b)[1..] == a[1..] + b;
      PayloadConcat(a[1..], b);
    }
  }

  lemma {:induction false} PayloadFits(pos: nat, atoms: seq<Atom>)
    ensures pos + Payload(atoms) <= End(pos, atoms)
    decreases atoms
  {
    if atoms != [] {
      PayloadFits(Start(pos, atoms[0]) + |atoms[0].bytes|, atoms[1..]);
    }
  }

  lemma {:induction false} MinOneBoundsEncode(
      c: Codec, known: set<string>, visiting: set<string>, v: Val, t: Ty)
    requires HasType(c.wire.program, v, t)
    ensures MinOne(c.wire.program, known, visiting, t) <= Payload(Flat(c.wire, v, t))
    decreases v, 1
  {
    match t
    case TString =>
      assert Flat(c.wire, v, t)[1..] == [Atom(1, v.chars + [0])];
    case TTuple(fields) => MinTotalBoundsEncode(c, known, visiting, v.items, fields, 0);
    case TMsg(name) =>
      if name in known && name !in visiting {
        MinTotalBoundsEncode(c, known, visiting + {name}, v.items, c.wire.program.Fields(name), 0);
      }
    case _ =>
  }

  lemma {:induction false} MinTotalBoundsEncode(
      c: Codec, known: set<string>, visiting: set<string>, vs: seq<Val>, ts: seq<Ty>, total: nat)
    requires HaveTypes(c.wire.program, vs, ts)
    ensures MinTotal(c.wire.program, known, visiting, ts, total) <= total + Payload(FlatFields(c.wire, vs, ts))
    decreases vs, 0
  {
    if ts != [] {
      var head := Flat(c.wire, vs[0], ts[0]);
      PayloadConcat(head, FlatFields(c.wire, vs[1..], ts[1..]));
      if ts[0].TSeq? {
        assert Payload(head) >= |head[0].bytes| == 4;
        MinTotalBoundsEncode(c, known, visiting, vs[1..], ts[1..], total + 4);
      } else {
        MinFieldBoundsEncode(c, known, visiting, vs[0], ts[0]);
        var sum := total + MinField(c.wire.program, known, visiting, ts[0]);
        MinTotalBoundsEncode(c, known, visiting, vs[1..], ts[1..], sum);
      }
    }
  }

  lemma {:induction false} MinFieldBoundsEncode(
      c: Codec, known: set<string>, visiting: set<string>, v: Val, t: Ty)
    requires HasType(c.wire.program, v, t)
    ensures MinField(c.wire.program, known, visiting, t) <= Payload(Flat(c.wire, v, t))
    decreases v, 2
  {
    if t.TArray? {
      var one := MinOne(c.wire.program, known, visiting, t.elem);
      MinBoundsEncodedList(c, known, visiting, v.items, t.elem);
      Times(Min(t.len, MAX_MIN_SIZE), t.len, one);
    } else {
      MinOneBoundsEncode(c, known, visiting, v, t);
    }
  }

  lemma {:induction false} MinBoundsEncodedList(
      c: Codec, known: set<string>, visiting: set<string>, vs: seq<Val>, elem: Ty)
    requires AllHaveType(c.wire.program, vs, elem)
    ensures |vs| * MinOne(c.wire.program, known, visiting, elem) <= Payload(FlatList(c.wire, vs, elem))
    decreases vs, 0
  {
    if vs != [] {
      var one := MinOne(c.wire.program, known, visiting, elem);
      PayloadConcat(Flat(c.wire, vs[0], elem), FlatList(c.wire, vs[1..], elem));
      MinOneBoundsEncode(c, known, visiting, vs[0], elem);
      MinBoundsEncodedList(c, known, visiting, vs[1..], elem);
      OneMore(|vs| - 1, one);
    }
  }

  /**
   The minimum size of a message is a lower bound for the encoder, for every set of known
   names and every set of names being visited: at every position it appends at least that
   many bytes.
   */
  lemma MinimumBoundsTheEncoder(
      c: Codec, known: set<string>, visiting: set<string>, fields: seq<Ty>, vs: seq<Val>, start: nat)
    requires HaveTypes(c.wire.program, vs, fields)
    ensures MinTotal(c.wire.program, known, visiting, fields, 0) <= |Encode(start, FlatFields(c.wire, vs, fields))|
  {
    MinTotalBoundsEncode(c, known, visiting, vs, fields, 0);
    PayloadFits(start, FlatFields(c.wire, vs, fields));
  }

  // And for every reader: an accepted input spends at least that many bytes.
  lemma MinimumBoundsTheDecoder(
      c: Codec, known: set<string>, visiting: set<string>, fields: seq<Ty>, data: Bytes, pos: nat)
    requires pos <= |data| && DecodeFields(c, fields, data, pos).Ok?
    ensures MinTotal(c.wire.program, known, visiting, fields, 0) <= DecodeFields(c, fields, data, pos).pos - pos
  {
    MinTotalBoundsDecode(c, known, visiting, fields, 0, data, pos);
  }

  // ----- transparency ---------------------------------------------------------

  function Unguarded(c: Codec): Codec {
    if c.lang.GuardedGo? then c.(lang := Go) else c
  }

  // Both fail, or both succeed with the same value and the same end.
  predicate Agree<T(==)>(a: Decoded<T>, b: Decoded<T>) {
    a == b || (a.Err? && b.Err?)
  }

  /**
   The guarded decoder accepts exactly what the same decoder without guards accepts, with
   the same value and the same end, for every type, input and position.
   */
  lemma {:induction false} GuardsAreTransparent(c: Codec, t: Ty, data: Bytes, pos: nat)
    requires pos <= |data|
    ensures Agree(Decode(c, t, data, pos), Decode(Unguarded(c), t, data, pos))
    decreases |data| - pos, c.wire.program.Rank(t), t, 1
  {
    hide DecodeList, DecodeFields, DecodeBlock, NumberValue, MinOne, MinTotal, MinField;
    var u := Unguarded(c);
    match t
    case TPrim(_) =>
    case TString =>
    case TSeq(elem) => SequenceGuardsAreTransparent(c, elem, data, pos);
    case TArray(n, elem) => ListGuardsAreTransparent(c, elem, n, 0, data, pos);
    case TTuple(fields) => FieldGuardsAreTransparent(c, fields, data, pos);
    case TMsg(name) => FieldGuardsAreTransparent(c, c.wire.program.Fields(name), data, pos);
    case TOption(inner) =>
      var w := DecodeWord(c, data, pos, 4);
      assert w == DecodeWord(u, data, pos, 4);
      if w.Ok? && w.value == 1 {
        GuardsAreTransparent(c, inner, data, w.pos);
      }
    case TEnum(variants) =>
      var w := DecodeWord(c, data, pos, 4);
      assert w == DecodeWord(u, data, pos, 4);
      if w.Ok? && w.value < |variants| {
        GuardsAreTransparent(c, variants[w.value], data, w.pos);
      }
    case TMap(key, value) =>
      var n := DecodeLength(c, t, data, pos);
      assert n == DecodeLength(u, t, data, pos);
      if n.Ok? {
        ListGuardsAreTransparent(c, TTuple([key, value]), n.value, 0, data, n.pos);
      }
    case TBulkSeq(_) => assert DecodeLength(c, t, data, pos) == DecodeLength(u, t, data, pos);
    case TBulkArray(_, _) =>
  }

  lemma {:induction false} SequenceGuardsAreTransparent(c: Codec, elem: Ty, data: Bytes, pos: nat)
    requires pos <= |data|
    ensures Agree(Decode(c, TSeq(elem), data, pos), Decode(Unguarded(c), TSeq(elem), data, pos))
    decreases |data| - pos, c.wire.program.Rank(TSeq(elem)), TSeq(elem), 0
  {
    hide DecodeList, DecodeFields;
    var u := Unguarded(c);
    var n := DecodeLength(u, elem, data, pos);
    if n.Ok? {
      var list := DecodeList(u, elem, n.value, 0, data, n.pos);
      if list.Ok? && LengthGuard(c, elem) > 0 {
        LengthGuardAdmits(c, elem, n.value, data, n.pos);
      }
      ListGuardsAreTransparent(c, elem, n.value, ElementGuard(c, elem), data, n.pos);
    }
  }

  lemma TimeTakesEightBytes(p: MessageTypes, known: set<string>, visiting: set<string>)
    ensures MinOne(p, known, visiting, TIME) == 8
  {
    var sec, nanosec := TPrim(I32), TPrim(U32);
    assert TIME.fields == [sec] + [nanosec];
    assert ([sec] + [nanosec])[1..] == [nanosec] && [nanosec][1..] == [];
    assert MinTotal(p, known, visiting, [], 8) == 8;
    assert MinField(p, known, visiting, nanosec) == 4 == MinField(p, known, visiting, sec);
    assert MinTotal(p, known, visiting, [nanosec], 4) == 8;
  }

  // The pre-allocation check lets every sequence pass whose elements can be decoded.
  lemma LengthGuardAdmits(c: Codec, elem: Ty, n: nat, data: Bytes, pos: nat)
    requires pos <= |data| && DecodeList(Unguarded(c), elem, n, 0, data, pos).Ok?
    requires LengthGuard(c, elem) > 0
    ensures n <= (|data| - pos) / LengthGuard(c, elem)
  {
    var min, u := LengthGuard(c, elem), Unguarded(c);
    assert min == MinOne(u.wire.program, {}, {}, elem) by {
      TimeTakesEightBytes(u.wire.program, {}, {});
    }
    MinBoundsList(u, {}, {}, elem, n, 0, data, pos);
    Quotient(n, min, |data| - pos);
  }

  lemma {:induction false} ListGuardsAreTransparent(
      c: Codec, elem: Ty, n: nat, need: nat, data: Bytes, pos: nat)
    requires pos <= |data|
    requires need == 0 || need == ElementGuard(c, elem)
    ensures Agree(DecodeList(c, elem, n, need, data, pos), DecodeList(Unguarded(c), elem, n, 0, data, pos))
    decreases |data| - pos, c.wire.program.Rank(elem), elem, n + 1
  {
    if n > 0 {
      var u := Unguarded(c);
      GuardsAreTransparent(c, elem, data, pos);
      var head := Decode(u, elem, data, pos);
      if head.Ok? {
        if need > 0 {
          MinOneBoundsDecode(u, c.lang.known, {}, elem, data, pos);
        }
        ListGuardsAreTransparent(c, elem, n - 1, need, data, head.pos);
      }
    }
  }

  lemma {:induction false} FieldGuardsAreTransparent(c: Codec, ts: seq<Ty>, data: Bytes, pos: nat)
    requires pos <= |data|
    ensures Agree(DecodeFields(c, ts, data, pos), DecodeFields(Unguarded(c), ts, data, pos))
    decreases |data| - pos, c.wire.program.RankAll(ts), ts, 0
  {
    if ts != [] {
      GuardsAreTransparent(c, ts[0], data, pos);
      var head := Decode(Unguarded(c), ts[0], data, pos);
      if head.Ok? {
        FieldGuardsAreTransparent(c, ts[1..], data, head.pos);
      }
    }
  }

  // The guarded decoder inherits the round trip.
  lemma GuardedRoundTrip(c: Codec, v: Val, t: Ty, pre: Bytes, post: Bytes)
    requires HasType(c.wire.program, v, t) && WithinLimits(c.wire.program, c.lang.Rust?, v, t)
    ensures var written := Encode(|pre|, Flat(c.wire, v, t));
            Decode(c, t, pre + written + post, |pre|) == Ok(v, |pre + written|)
  {
    hide Decode, HasType, WithinLimits, Flat;
    WrittenRoundTrip(Unguarded(c), v, t, pre, post);
    GuardsAreTransparent(c, t, pre + Encode(|pre|, Flat(c.wire, v, t)) + post, |pre|);
  }

  // Every strict prefix of a written value is rejected, with the guards as well.
  lemma GuardedTruncation(c: Codec, v: Val, t: Ty, pre: Bytes, cut: nat)
    requires HasType(c.wire.program, v, t) && WithinLimits(c.wire.program, c.lang.Rust?, v, t)
    requires |pre| <= cut < |pre| + |Encode(|pre|, Flat(c.wire, v, t))|
    ensures Decode(c, t, (pre + Encode(|pre|, Flat(c.wire, v, t)))[..cut], |pre|).Err?
  {
    hide Decode, HasType, WithinLimits, Flat, Encode;
    TruncationIsRejected(Unguarded(c), v, t, pre, cut);
    GuardsAreTransparent(c, t, (pre + Encode(|pre|, Flat(c.wire, v, t)))[..cut], |pre|);
  }

  // Within the limits of a reader, guarded or not, no encoding is a prefix of another.
  lemma GuardedEncodingIsInjective(c: Codec, t: Ty, v: Val, w: Val, pos: nat)
    requires HasType(c.wire.program, v, t) && WithinLimits(c.wire.program, c.lang.Rust?, v, t)
    requires HasType(c.wire.program, w, t) && WithinLimits(c.wire.program, c.lang.Rust?, w, t)
    requires Encode(pos, Flat(c.wire, v, t)) <= Encode(pos, Flat(c.wire, w, t))
    ensures v == w
  {
    hide Decode, HasType, WithinLimits, Flat, Encode;
    EncodingIsInjective(Unguarded(c), t, v, w, pos);
  }
}
