/**
 The size analysis of the generator: a walk over a message graph that may be
 cyclic, with a mutable set of the names being visited and int64 sums.
 */
module GoMinSize {
  import opened CdrWire
  import opened CdrLayout
  import opened CdrTypes
  import opened GoGuards
  import opened GoSchema

  // Go's int64: an operation that leaves the range does not verify.
  newtype int64 = x: int | -0x8000_0000_0000_0000 <= x < 0x8000_0000_0000_0000

  const MAX_FIELDS: nat := 0x1000_0000

  // Go's map[string]bool, passed by reference and changed in place.
  class Visiting {
    var keys: set<string>

    constructor ()
      ensures keys == {}
    {
      keys := {};
    }
  }

  // ----- how large the result can get -----------------------------------------

  // The capped sum exceeds the cap by no more than the sequence prefixes.
  lemma {:induction false} MinTotalIsBounded(
      p: MessageTypes, known: set<string>, visiting: set<string>, ts: seq<Ty>, total: nat)
    ensures MinTotal(p, known, visiting, ts, total)
         <= (if total < MAX_MIN_SIZE then MAX_MIN_SIZE else total) + 4 * |ts|
    decreases ts
  {
    if ts != [] {
      if ts[0].TSeq? {
        MinTotalIsBounded(p, known, visiting, ts[1..], total + 4);
      } else {
        MinTotalIsBounded(p, known, visiting, ts[1..], total + MinField(p, known, visiting, ts[0]));
      }
    }
  }

  // Every message of the program has fewer than 2^28 fields.
  predicate FieldCountsFit(s: GeneratedTypes) {
    forall key <- s.messages :: |s.messages[key]| < MAX_FIELDS
  }

  lemma MinOneIsBounded(s: GeneratedTypes, known: set<string>, visiting: set<string>, kind: Kind)
    requires FieldCountsFit(s)
    ensures MinOne(s.GoTypes(), known, visiting, ElemTy(kind)) <= MAX_MIN_SIZE + 4 * MAX_FIELDS
  {
    match kind
    case Time | Duration => MinTotalIsBounded(s.GoTypes(), known, visiting, TIME.fields, 0);
    case Custom(package, name) =>
      var key := MessageKey(package, name);
      FieldsOfKey(s, key);
      MinTotalIsBounded(s.GoTypes(), known, visiting + {key}, GoTys(s.Fields(key)), 0);
    case _ =>
  }

  // ----- the analysis ------------------------------------------------------------

  const MAX_MIN_SIZE_64: int64 := 0x8000_0000

  function SizeOfPrimitive(prim: Prim): int64 {
    match Width(prim)
    case 1 => 1
    case 2 => 2
    case 4 => 4
    case 8 => 8
  }

  /**
   Terminates on every manifest, also on messages that contain themselves and would not
   compile, and gives `visiting` back as it found it. The arithmetic is that of int64, sums
   and products included, and the result is the minimum over unbounded numbers, as long as
   messages have fewer than 2^28 fields: nothing overflows.
   */
  method MinCdrSizeVisiting(s: GeneratedTypes, known: set<string>, fields: seq<FieldDefinition>, visiting: Visiting)
    returns (total: int64)
    requires FieldCountsFit(s) && |fields| < MAX_FIELDS
    modifies visiting
    ensures visiting.keys == old(visiting.keys)
    ensures total as int == MinTotal(s.GoTypes(), known, visiting.keys, GoTys(fields), 0)
    ensures 0 <= total as int <= MAX_MIN_SIZE + 4 * |fields|
    decreases known - visiting.keys, 1, 0
  {
    hide MinOne, MinTotal;
    ghost var p, seen, tys := s.GoTypes(), visiting.keys, GoTys(fields);
    MinTotalIsBounded(p, known, seen, tys, 0);
    assert tys[0..] == tys;
    total := 0;
    for i := 0 to |fields|
      invariant visiting.keys == seen
      invariant 0 <= total as int <= MAX_MIN_SIZE + 4 * i
      invariant MinTotal(p, known, seen, tys, 0) == MinTotal(p, known, seen, tys[i..], total as nat)
    {
      var f := fields[i];
      assert tys[i..][0] == GoTy(f) && tys[i..][1..] == tys[i + 1..];
      MinTotalStep(p, known, seen, tys[i..], total as nat);
      if f.IsArray() && !f.shape.Fixed? {
        total := total + 4;
        continue;
      }
      var n: int64 := 1;
      if f.IsArray() {
        n := if f.shape.size > MAX_MIN_SIZE then MAX_MIN_SIZE_64 else f.shape.size as int64;
      }
      var one := ElementMinSize(s, known, f.kind, visiting);
      if f.IsArray() && f.kind == String {
        total := total + 4;
        continue;
      }
      MinOneIsBounded(s, known, seen, f.kind);
      ProductFits(n as nat, one as nat);
      total := total + n * one;
      if total > MAX_MIN_SIZE_64 {
        return MAX_MIN_SIZE_64;
      }
    }
    MinTotalStep(p, known, seen, [], total as nat);
  }

  lemma MinTotalStep(p: MessageTypes, known: set<string>, visiting: set<string>, ts: seq<Ty>, total: nat)
    ensures MinTotal(p, known, visiting, ts, total) ==
      if ts == [] then total
      else if ts[0].TSeq? then MinTotal(p, known, visiting, ts[1..], total + 4)
      else
        var sum := total + MinField(p, known, visiting, ts[0]);
        if sum > MAX_MIN_SIZE then MAX_MIN_SIZE else MinTotal(p, known, visiting, ts[1..], sum)
  {
  }

  lemma ProductFits(n: nat, one: nat)
    requires n <= MAX_MIN_SIZE && one <= MAX_MIN_SIZE + 4 * MAX_FIELDS
    ensures 0 <= n * one && n * one + MAX_MIN_SIZE + 4 * MAX_FIELDS < 0x8000_0000_0000_0000
  {
    Times(n, MAX_MIN_SIZE, one);
  }

  // The switch over the kind of one field.
  method ElementMinSize(s: GeneratedTypes, known: set<string>, kind: Kind, visiting: Visiting) returns (one: int64)
    requires FieldCountsFit(s)
    modifies visiting
    ensures visiting.keys == old(visiting.keys)
    ensures one as int == MinOne(s.GoTypes(), known, visiting.keys, ElemTy(kind))
    decreases known - visiting.keys, 0, 1
  {
    match kind {
      case String => one := 4;
      case Time | Duration =>
        TimeTakesEightBytes(s.GoTypes(), known, visiting.keys);
        one := 8;
      case Custom(_, _) => one := NestedMinSize(s, known, kind, visiting);
      case Primitive(prim) => one := SizeOfPrimitive(prim);
    }
  }

  method NestedMinSize(s: GeneratedTypes, known: set<string>, kind: Kind, visiting: Visiting) returns (size: int64)
    requires FieldCountsFit(s) && kind.Custom?
    modifies visiting
    ensures visiting.keys == old(visiting.keys)
    ensures size as int == MinOne(s.GoTypes(), known, visiting.keys, ElemTy(kind))
    decreases known - visiting.keys, 0, 0
  {
    var key := MessageKey(kind.package, kind.name);
    FieldsOfKey(s, key);
    if key !in known || key in visiting.keys {
      return 0;
    }
    visiting.keys := visiting.keys + {key};
    size := MinCdrSizeVisiting(s, known, s.Fields(key), visiting);
    visiting.keys := visiting.keys - {key};
  }

  // minCDRSize: the analysis from an empty set.
  method MinCdrSize(s: GeneratedTypes, known: set<string>, fields: seq<FieldDefinition>) returns (total: int64)
    requires FieldCountsFit(s) && |fields| < MAX_FIELDS
    ensures total as int == MinTotal(s.GoTypes(), known, {}, GoTys(fields), 0)
    ensures total as int <= MAX_MIN_SIZE + 4 * |fields|
  {
    var visiting := new Visiting();
    total := MinCdrSizeVisiting(s, known, fields, visiting);
  }
}
