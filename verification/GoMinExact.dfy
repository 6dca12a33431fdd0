/**
 The size analysis against what it is an analysis of: up to its cap the computed minimum is
 the payload of the shortest data an accepted message can have.
 */
module GoMinExact {
  import opened CdrWire
  import opened CdrLayout
  import opened CdrTypes
  import opened CdrRoundTrip
  import opened GoGuards
  import opened GoSchema
  import opened GoMinSize
  import opened CdrAcceptance

  // ----- the least payload ------------------------------------------------------------

  // What a value of a type takes at least, padding ignored: a bare length for strings and sequences.
  function LeastBytes(p: Program, t: Ty): nat
    decreases p.Rank(t), t, 0
  {
    match t
    case TPrim(prim) => Width(prim)
    case TString | TSeq(_) => 4
    case TArray(n, elem) => n * LeastBytes(p, elem)
    case TTuple(fields) => LeastBytesOfAll(p, fields)
    case TMsg(name) => LeastBytesOfAll(p, p.Fields(name))
    case _ => 0
  }

  function LeastBytesOfAll(p: Program, ts: seq<Ty>): nat
    decreases p.RankAll(ts), ts, 0
  {
    if ts == [] then 0 else LeastBytes(p, ts[0]) + LeastBytesOfAll(p, ts[1..])
  }

  /**
   The types of the generated Go code, as far as the analysis follows them: arrays have single
   elements, and the messages inside are known.
   */
  predicate IsMeasured(p: Program, known: set<string>, t: Ty)
    decreases p.Rank(t), t, 0
  {
    match t
    case TPrim(_) | TString | TSeq(_) => true
    case TArray(_, elem) => !elem.TSeq? && !elem.TArray? && IsMeasured(p, known, elem)
    case TTuple(fields) => AreMeasured(p, known, fields)
    case TMsg(name) => name in known && AreMeasured(p, known, p.Fields(name))
    case _ => false
  }

  predicate AreMeasured(p: Program, known: set<string>, ts: seq<Ty>)
    decreases p.RankAll(ts), ts, 0
  {
    ts == [] || (IsMeasured(p, known, ts[0]) && AreMeasured(p, known, ts[1..]))
  }

  // ----- the analysis is exact up to its cap ----------------------------------------------

  // Exact below the cap, and between the cap and the truth above it.
  predicate UpToTheCap(computed: nat, least: nat) {
    Min(least, MAX_MIN_SIZE) <= computed <= least
  }

  // Nothing inside the fields is being visited: whatever is has a larger rank.
  predicate VisitsAbove(p: Program, visiting: set<string>, rank: nat) {
    forall name <- visiting :: rank <= p.RankOf(name)
  }

  lemma {:induction false} MinOneUpToTheCap(p: Program, known: set<string>, visiting: set<string>, t: Ty)
    requires IsMeasured(p, known, t) && VisitsAbove(p, visiting, p.Rank(t)) && !t.TSeq? && !t.TArray?
    ensures UpToTheCap(MinOne(p, known, visiting, t), LeastBytes(p, t))
    decreases p.Rank(t), t, 0
  {
    match t
    case TPrim(_) =>
    case TString =>
    case TTuple(fields) => MinTotalUpToTheCap(p, known, visiting, fields, 0);
    case TMsg(name) => MinTotalUpToTheCap(p, known, visiting + {name}, p.Fields(name), 0);
  }

  lemma {:induction false} MinTotalUpToTheCap(
    p: Program, known: set<string>, visiting: set<string>, ts: seq<Ty>, total: nat)
    requires AreMeasured(p, known, ts) && VisitsAbove(p, visiting, p.RankAll(ts))
    ensures UpToTheCap(MinTotal(p, known, visiting, ts, total), total + LeastBytesOfAll(p, ts))
    decreases p.RankAll(ts), ts, 0
  {
    hide MinOne, IsMeasured, LeastBytes, MinField;
    if ts != [] {
      var t := ts[0];
      if t.TSeq? {
        SequencePrefix(p, t);
        MinTotalUpToTheCap(p, known, visiting, ts[1..], total + 4);
      } else {
        MinFieldUpToTheCap(p, known, visiting, t);
        MinTotalUpToTheCap(p, known, visiting, ts[1..], total + MinField(p, known, visiting, t));
      }
    }
  }

  lemma SequencePrefix(p: Program, t: Ty)
    requires t.TSeq?
    ensures LeastBytes(p, t) == 4
  {
  }

  lemma {:induction false} MinFieldUpToTheCap(p: Program, known: set<string>, visiting: set<string>, t: Ty)
    requires IsMeasured(p, known, t) && VisitsAbove(p, visiting, p.Rank(t)) && !t.TSeq?
    ensures UpToTheCap(MinField(p, known, visiting, t), LeastBytes(p, t))
    decreases p.Rank(t), t, 1
  {
    hide MinOne;
    if t.TArray? {
      MinOneUpToTheCap(p, known, visiting, t.elem);
      ProductUpToTheCap(t.len, MinOne(p, known, visiting, t.elem), LeastBytes(p, t.elem));
    } else {
      MinOneUpToTheCap(p, known, visiting, t);
    }
  }

  lemma ProductUpToTheCap(n: nat, one: nat, least: nat)
    requires UpToTheCap(one, least)
    ensures UpToTheCap(Min(n, MAX_MIN_SIZE) * one, n * least)
  {
    var m := Min(n, MAX_MIN_SIZE);
    Times(m, n, one);
    Times(one, least, n);
    assert m * one <= n * one <= n * least;
    if one == 0 {
      assert n * least == 0;
    } else if n >= MAX_MIN_SIZE {
      Times(1, one, MAX_MIN_SIZE);
    } else if one < least && n > 0 {
      Times(1, n, one);
    }
  }

  /**
   `minCDRSize` of fields the analysis follows: below the cap the exact least payload, and
   never less than the cap above it.
   */
  lemma MinimumIsExact(p: Program, known: set<string>, ts: seq<Ty>)
    requires AreMeasured(p, known, ts)
    ensures var least, min := LeastBytesOfAll(p, ts), MinTotal(p, known, {}, ts, 0);
      (least <= MAX_MIN_SIZE ==> min == least) && (least > MAX_MIN_SIZE ==> MAX_MIN_SIZE <= min <= least)
  {
    MinTotalUpToTheCap(p, known, {}, ts, 0);
  }

  // The checks the emitted decoder makes are the strongest there are, up to the cap.
  lemma GuardsAreLeast(c: Codec, elem: Ty)
    requires c.lang.GuardedGo? && IsMeasured(c.wire.program, c.lang.known, elem)
    ensures elem.TPrim? || elem == TString || elem == TIME ==> LengthGuard(c, elem) == LeastBytes(c.wire.program, elem)
    ensures elem.TMsg? ==> ElementGuard(c, elem) == Min(LeastBytes(c.wire.program, elem), MAX_INT32)
  {
    if elem.TMsg? {
      MinOneUpToTheCap(c.wire.program, c.lang.known, {}, elem);
    } else if elem == TIME {
      MinOneUpToTheCap(c.wire.program, c.lang.known, {}, elem);
      TimeTakesEightBytes(c.wire.program, c.lang.known, {});
    }
  }

  /**
   The check in front of an allocation: a count is taken exactly when it is there and as many
   shortest elements fit in what follows it.
   */
  lemma AllocationsFit(c: Codec, elem: Ty, data: Bytes, pos: nat, n: nat, q: nat)
    requires c.lang.GuardedGo? && (elem.TPrim? || elem == TString || elem == TIME)
    ensures DecodeLength(c, elem, data, pos) == Ok(n, q) <==>
      DecodeWord(c, data, pos, 4) == Ok(n, q) && q + n * LeastBytes(c.wire.program, elem) <= |data|
  {
    hide DecodeWord;
    if elem == TIME {
      TimeIsMeasured(c.wire.program, c.lang.known);
    }
    GuardsAreLeast(c, elem);
    hide LeastBytes, LengthGuard;
    GuardIsPositive(c, elem);
    if q <= |data| {
      FitsExactly(n, LengthGuard(c, elem), |data| - q);
    }
  }

  lemma GuardIsPositive(c: Codec, elem: Ty)
    requires c.lang.GuardedGo? && (elem.TPrim? || elem == TString || elem == TIME)
    ensures LengthGuard(c, elem) > 0
  {
  }

  lemma FitsExactly(n: nat, k: nat, left: nat)
    requires k > 0
    ensures n <= left / k <==> n * k <= left
  {
    if n * k <= left {
      Quotient(n, k, left);
    } else if n <= left / k {
      Times(n, left / k, k);
    }
  }

  // ----- manifests are measured ----------------------------------------------------------------

  // What the fields refer to is known.
  predicate References(known: set<string>, fields: seq<FieldDefinition>) {
    forall f <- fields :: f.kind.Custom? ==> MessageKey(f.kind.package, f.kind.name) in known
  }

  predicate AllReferences(s: Schema, known: set<string>) {
    forall key <- s.messages :: References(known, s.messages[key])
  }

  // With an index of all messages the analysis follows every message of a manifest.
  lemma {:induction false} ManifestIsMeasured(s: Schema, known: set<string>, fields: seq<FieldDefinition>, i: nat)
    requires AllReferences(s, known) && References(known, fields) && i <= |fields|
    ensures AreMeasured(s.GoTypes(), known, GoTys(fields)[i..])
    decreases s.GoTypes().RankAll(GoTys(fields)[i..]), |fields| - i, 1
  {
    hide GoTy, IsMeasured, AllReferences;
    if i < |fields| {
      assert GoTys(fields)[i..][1..] == GoTys(fields)[i + 1..];
      assert fields[i] in fields;
      FieldIsMeasured(s, known, fields[i]);
      ManifestIsMeasured(s, known, fields, i + 1);
    }
  }

  lemma TimeIsMeasured(p: Program, known: set<string>)
    ensures IsMeasured(p, known, TIME)
  {
    assert TIME.fields[1..] == [TPrim(U32)] && TIME.fields[1..][1..] == [];
    assert AreMeasured(p, known, []);
    assert AreMeasured(p, known, TIME.fields[1..]);
  }

  lemma {:induction false} FieldIsMeasured(s: Schema, known: set<string>, f: FieldDefinition)
    requires AllReferences(s, known) && References(known, [f])
    ensures IsMeasured(s.GoTypes(), known, GoTy(f))
    decreases s.GoTypes().Rank(GoTy(f)), 0, 0
  {
    assert f in [f];
    if !GoTy(f).TSeq? {
      match f.kind
      case Custom(package, name) =>
        var key := MessageKey(package, name);
        FieldsOfKey(s, key);
        assert GoTys(s.Fields(key))[0..] == GoTys(s.Fields(key)) == s.GoTypes().Fields(key);
        assert s.GoTypes().RankAll(s.GoTypes().Fields(key)) < s.GoTypes().Rank(TMsg(key)) == s.GoTypes().Rank(GoTy(f));
        ManifestIsMeasured(s, known, s.Fields(key), 0);
      case Time | Duration => TimeIsMeasured(s.GoTypes(), known);
      case _ =>
    }
  }

  // ----- no spelling is shorter --------------------------------------------------------------

  lemma {:induction false} NoSpellingIsShorter(c: Codec, known: set<string>, v: Val, t: Ty, atoms: seq<Atom>)
    requires IsMeasured(c.wire.program, known, t) && Spells(c, v, t, atoms)
    ensures LeastBytes(c.wire.program, t) <= Payload(atoms)
    decreases v, 1
  {
    hide SpellsList, SpellsFields;
    match t
    case TPrim(prim) =>
    case TString => assert |atoms[0].bytes| == 4;
    case TSeq(elem) => assert |atoms[0].bytes| == 4;
    case TArray(n, elem) => NoListIsShorter(c, known, v.items, elem, atoms);
    case TTuple(fields) => NoFieldsAreShorter(c, known, v.items, fields, atoms);
    case TMsg(name) => NoFieldsAreShorter(c, known, v.items, c.wire.program.Fields(name), atoms);
  }

  lemma {:induction false} NoListIsShorter(c: Codec, known: set<string>, vs: seq<Val>, elem: Ty, atoms: seq<Atom>)
    requires IsMeasured(c.wire.program, known, elem) && SpellsList(c, vs, elem, atoms)
    ensures |vs| * LeastBytes(c.wire.program, elem) <= Payload(atoms)
    decreases vs, 0
  {
    hide Spells, IsMeasured, LeastBytes;
    if vs != [] {
      var i :| 0 <= i <= |atoms| && Spells(c, vs[0], elem, atoms[..i]) && SpellsList(c, vs[1..], elem, atoms[i..]);
      SplitPayload(atoms, i);
      NoSpellingIsShorter(c, known, vs[0], elem, atoms[..i]);
      NoListIsShorter(c, known, vs[1..], elem, atoms[i..]);
      OneMore(|vs| - 1, LeastBytes(c.wire.program, elem));
    }
  }

  lemma {:induction false} NoFieldsAreShorter(c: Codec, known: set<string>, vs: seq<Val>, ts: seq<Ty>, atoms: seq<Atom>)
    requires AreMeasured(c.wire.program, known, ts) && SpellsFields(c, vs, ts, atoms)
    ensures LeastBytesOfAll(c.wire.program, ts) <= Payload(atoms)
    decreases vs, 0
  {
    hide Spells, IsMeasured, LeastBytes;
    if vs != [] {
      var i :| 0 <= i <= |atoms|
        && Spells(c, vs[0], ts[0], atoms[..i]) && SpellsFields(c, vs[1..], ts[1..], atoms[i..]);
      SplitPayload(atoms, i);
      NoSpellingIsShorter(c, known, vs[0], ts[0], atoms[..i]);
      NoFieldsAreShorter(c, known, vs[1..], ts[1..], atoms[i..]);
    }
  }

  lemma SplitPayload(atoms: seq<Atom>, i: nat)
    requires i <= |atoms|
    ensures Payload(atoms) == Payload(atoms[..i]) + Payload(atoms[i..])
  {
    assert atoms == atoms[..i] + atoms[i..];
    PayloadConcat(atoms[..i], atoms[i..]);
  }

  // ----- the shortest spelling -----------------------------------------------------------------

  lemma {:induction false} ShortestSpelling(c: Codec, known: set<string>, t: Ty) returns (v: Val, atoms: seq<Atom>)
    requires IsMeasured(c.wire.program, known, t)
    ensures Spells(c, v, t, atoms) && Payload(atoms) == LeastBytes(c.wire.program, t)
    decreases c.wire.program.Rank(t), t, 0
  {
    hide SpellsList, SpellsFields, LengthWord;
    match t
    case TPrim(prim) =>
      v, atoms := VPrim(0), [Word(c.wire.order, 0, Width(prim))];
      ZeroIsSpelled(c, prim);
    case TString =>
      v, atoms := VString([]), [LengthWord(c.wire, 0)];
      BareLength(c);
    case TSeq(elem) =>
      v, atoms := VList([]), [LengthWord(c.wire, 0)];
      BareLength(c);
      NoList(c, elem);
    case TArray(n, elem) =>
      var items;
      items, atoms := ShortestList(c, known, n, elem);
      v := VList(items);
    case TTuple(fields) =>
      var items;
      items, atoms := ShortestFields(c, known, fields);
      v := VList(items);
    case TMsg(name) =>
      var items;
      items, atoms := ShortestFields(c, known, c.wire.program.Fields(name));
      v := VList(items);
  }

  lemma ZeroIsSpelled(c: Codec, prim: Prim)
    ensures SpellsNumber(c, prim, 0, [Word(c.wire.order, 0, Width(prim))])
    ensures Payload([Word(c.wire.order, 0, Width(prim))]) == Width(prim)
  {
    var zero: Byte := 0;
    assert [Word(c.wire.order, zero, Width(prim))][1..] == [];
  }

  lemma BareLength(c: Codec)
    ensures Payload([LengthWord(c.wire, 0)]) == 4 && Prefixed(c, 0, [LengthWord(c.wire, 0)])
    ensures [LengthWord(c.wire, 0)][1..] == []
  {
  }

  lemma {:induction false} ShortestList(c: Codec, known: set<string>, n: nat, elem: Ty)
    returns (vs: seq<Val>, atoms: seq<Atom>)
    requires IsMeasured(c.wire.program, known, elem)
    ensures |vs| == n && SpellsList(c, vs, elem, atoms)
    ensures Payload(atoms) == n * LeastBytes(c.wire.program, elem)
    decreases c.wire.program.Rank(elem), elem, n + 1
  {
    hide Spells, IsMeasured, LeastBytes, SpellsList;
    if n == 0 {
      vs, atoms := [], [];
      NoList(c, elem);
    } else {
      var v, first := ShortestSpelling(c, known, elem);
      var more, rest := ShortestList(c, known, n - 1, elem);
      vs, atoms := [v] + more, first + rest;
      ListSpelled(c, v, more, elem, first, rest);
      PayloadConcat(first, rest);
      OneMore(n - 1, LeastBytes(c.wire.program, elem));
    }
  }

  lemma {:induction false} ShortestFields(c: Codec, known: set<string>, ts: seq<Ty>)
    returns (vs: seq<Val>, atoms: seq<Atom>)
    requires AreMeasured(c.wire.program, known, ts)
    ensures SpellsFields(c, vs, ts, atoms) && Payload(atoms) == LeastBytesOfAll(c.wire.program, ts)
    decreases c.wire.program.RankAll(ts), ts, 0
  {
    hide Spells, IsMeasured, LeastBytes, SpellsFields;
    if ts == [] {
      vs, atoms := [], [];
      NoFields(c);
    } else {
      var v, first := ShortestSpelling(c, known, ts[0]);
      var more, rest := ShortestFields(c, known, ts[1..]);
      vs, atoms := [v] + more, first + rest;
      FieldsSpelled(c, v, more, ts, first, rest);
      PayloadConcat(first, rest);
    }
  }

  /**
   The computed minimum is attained: some accepted message has exactly this payload, and none
   has less.
   */
  lemma MinimumIsAttained(c: Codec, known: set<string>, ts: seq<Ty>) returns (vs: seq<Val>, atoms: seq<Atom>)
    requires AreMeasured(c.wire.program, known, ts) && LeastBytesOfAll(c.wire.program, ts) <= MAX_MIN_SIZE
    ensures SpellsFields(c, vs, ts, atoms) && Payload(atoms) == MinTotal(c.wire.program, known, {}, ts, 0)
    ensures forall ws, more :: SpellsFields(c, ws, ts, more) ==> Payload(atoms) <= Payload(more)
  {
    hide SpellsFields;
    MinimumIsExact(c.wire.program, known, ts);
    vs, atoms := ShortestFields(c, known, ts);
    forall ws, more | SpellsFields(c, ws, ts, more) ensures Payload(atoms) <= Payload(more) {
      NoFieldsAreShorter(c, known, ws, ts, more);
    }
  }

  // ----- messages of fixed size ------------------------------------------------------------------

  // Numbers, and arrays and messages of these.
  predicate HasFixedSize(p: Program, t: Ty)
    decreases p.Rank(t), t, 0
  {
    match t
    case TPrim(_) => true
    case TArray(_, elem) => HasFixedSize(p, elem)
    case TTuple(fields) => HaveFixedSize(p, fields)
    case TMsg(name) => HaveFixedSize(p, p.Fields(name))
    case _ => false
  }

  predicate HaveFixedSize(p: Program, ts: seq<Ty>)
    decreases p.RankAll(ts), ts, 0
  {
    ts == [] || (HasFixedSize(p, ts[0]) && HaveFixedSize(p, ts[1..]))
  }

  lemma {:induction false} FixedPayload(w: Wire, v: Val, t: Ty)
    requires HasFixedSize(w.program, t) && HasType(w.program, v, t)
    ensures Payload(Flat(w, v, t)) == LeastBytes(w.program, t)
    decreases v, 1
  {
    hide FlatList, FlatFields, AllHaveType, HaveTypes;
    match t
    case TPrim(prim) => assert [Word(w.order, v.bits, Width(prim))][1..] == [];
    case TArray(_, elem) => FixedListPayload(w, v.items, elem);
    case TTuple(fields) => FixedFieldsPayload(w, v.items, fields);
    case TMsg(name) => FixedFieldsPayload(w, v.items, w.program.Fields(name));
  }

  lemma {:induction false} FixedListPayload(w: Wire, vs: seq<Val>, elem: Ty)
    requires HasFixedSize(w.program, elem) && AllHaveType(w.program, vs, elem)
    ensures Payload(FlatList(w, vs, elem)) == |vs| * LeastBytes(w.program, elem)
    decreases vs, 0
  {
    hide Flat, HasType, HasFixedSize, LeastBytes;
    if vs != [] {
      PayloadConcat(Flat(w, vs[0], elem), FlatList(w, vs[1..], elem));
      FixedPayload(w, vs[0], elem);
      FixedListPayload(w, vs[1..], elem);
      OneMore(|vs| - 1, LeastBytes(w.program, elem));
    }
  }

  lemma {:induction false} FixedFieldsPayload(w: Wire, vs: seq<Val>, ts: seq<Ty>)
    requires HaveFixedSize(w.program, ts) && HaveTypes(w.program, vs, ts)
    ensures Payload(FlatFields(w, vs, ts)) == LeastBytesOfAll(w.program, ts)
    decreases vs, 0
  {
    hide Flat, HasType, HasFixedSize, LeastBytes;
    if vs != [] {
      PayloadConcat(Flat(w, vs[0], ts[0]), FlatFields(w, vs[1..], ts[1..]));
      FixedPayload(w, vs[0], ts[0]);
      FixedFieldsPayload(w, vs[1..], ts[1..]);
    }
  }

  // Every message of fixed size is written with exactly the computed minimum, padding aside.
  lemma MinimumIsTheSize(w: Wire, known: set<string>, vs: seq<Val>, ts: seq<Ty>)
    requires AreMeasured(w.program, known, ts) && HaveFixedSize(w.program, ts) && HaveTypes(w.program, vs, ts)
    requires Payload(FlatFields(w, vs, ts)) <= MAX_MIN_SIZE
    ensures MinTotal(w.program, known, {}, ts, 0) == Payload(FlatFields(w, vs, ts))
  {
    FixedFieldsPayload(w, vs, ts);
    MinimumIsExact(w.program, known, ts);
  }

  // 36 doubles are 288 bytes.
  lemma CovarianceTakes288Bytes(p: Program, known: set<string>)
    ensures MinTotal(p, known, {}, [TArray(36, TPrim(F64))], 0) == 288
  {
    var ts := [TArray(36, TPrim(F64))];
    assert ts[1..] == [] && LeastBytesOfAll(p, ts[1..]) == 0;
    assert LeastBytes(p, ts[0]) == 288;
    MinimumIsExact(p, known, ts);
  }
}
