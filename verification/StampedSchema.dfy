/**
 A schema the generator accepts and the derive it emits does not: a message with a
 `builtin_interfaces/Time` in front of an octet is taken for plain and has padding.
 */
module StampedSchema {
  import opened CdrWire
  import opened CdrLayout
  import opened TypeNames
  import opened TypeDescriptions
  import opened RustGenerator

  const BOTH: seq<ParsedMessage> := [TIME_MESSAGE, STAMPED]

  const PLAIN: set<PlainKey> := {KeyOf(TIME_MESSAGE), KeyOf(STAMPED)}

  const TIME_NAME: string := "builtin_interfaces/Time"
  const STAMPED_NAME: string := "p/Stamped"

  const RANK: map<string, nat> := map[TIME_NAME := 0, STAMPED_NAME := 1]

  // ----- the messages ---------------------------------------------------------------

  lemma Names()
    ensures MessageKey(TIME_MESSAGE) == TIME_NAME && MessageKey(STAMPED) == STAMPED_NAME
    ensures |TIME_NAME| == 23 && |STAMPED_NAME| == 9
  {
  }

  lemma IndexOfBoth()
    ensures HaveDistinctKeys(BOTH)
    ensures Index(BOTH) == map[TIME_NAME := TIME_MESSAGE, STAMPED_NAME := STAMPED]
  {
    hide MessageKey;
    Names();
    assert BOTH[1..] == [STAMPED] && [STAMPED][1..] == [];
    assert Index([]) == map[];
    assert Index([STAMPED]) == map[STAMPED_NAME := STAMPED];
  }

  lemma TimeIsWellNamed()
    ensures WellNamed(TIME_MESSAGE)
  {
  }

  lemma StampedIsWellNamed()
    ensures WellNamed(STAMPED)
  {
  }

  // ----- their types ----------------------------------------------------------------

  function TheTypes(): MessageTypes {
    MessageTypes(
      map[TIME_NAME := [TPrim(I32), TPrim(U32)], STAMPED_NAME := [TMsg(TIME_NAME), TPrim(U8)]],
      RANK)
  }

  lemma TimeTypes(plain: set<PlainKey>)
    ensures RustTys(Little, plain, TIME_MESSAGE.fields, TIME_MESSAGE.package) == [TPrim(I32), TPrim(U32)]
  {
  }

  lemma TypesOfBoth(r: GeneratedRust)
    requires r == GeneratedRust(Little, Index(BOTH), r.plain, RANK)
    ensures r.Types() == TheTypes()
  {
    hide RustTys;
    IndexOfBoth();
    Names();
    TimeTypes(r.plain);
    StampedTypes(r.plain);
    assert r.Types().types == TheTypes().types;
  }

  lemma TypesAreFinite()
    ensures TheTypes().FiniteSize()
  {
    var t := TheTypes();
    Names();
    assert [TPrim(I32), TPrim(U32)][1..] == [TPrim(U32)] && [TPrim(U32)][1..] == [];
    assert t.RankAll([TPrim(U32)]) == 0;
    assert [TMsg(TIME_NAME), TPrim(U8)][1..] == [TPrim(U8)] && [TPrim(U8)][1..] == [];
    assert t.RankAll([TPrim(U8)]) == 0;
  }

  // ----- the schema -----------------------------------------------------------------

  lemma BothArePlain(plain: set<PlainKey>)
    requires IsClosed(BOTH, plain)
    ensures PLAIN <= plain
  {
    hide IsClosed, Qualifies;
    NumbersQualify(plain);
    Admits(BOTH, plain, TIME_MESSAGE);
    StampedQualifies(plain);
    Admits(BOTH, plain, STAMPED);
  }

  lemma NothingIsCopied(r: GeneratedRust)
    requires r.messages == Index(BOTH) && r.Types().FiniteSize()
    ensures r.BlocksHaveBytes()
  {
    hide Index, MessageTypes.FiniteSize, GeneratedRust.Types;
    IndexOfBoth();
    assert forall m <- BOTH :: forall f <- m.fields :: f.fieldType.arrayType.Single?;
  }

  lemma SchemaIsWellFormed(r: GeneratedRust)
    requires r == GeneratedRust(Little, Index(BOTH), r.plain, RANK) && r.Types().FiniteSize()
    requires forall k <- r.plain :: exists m <- r.messages.Values :: KeyOf(m) == k && Qualifies(m, r.plain)
    ensures r.IsWellFormed()
  {
    hide Index, Qualifies, WellNamed, MessageKey, MessageTypes.FiniteSize, GeneratedRust.BlocksHaveBytes;
    hide GeneratedRust.Types;
    IndexOfBoth();
    Names();
    TimeIsWellNamed();
    StampedIsWellNamed();
    NothingIsCopied(r);
  }

  lemma DeriveRejects(r: GeneratedRust)
    requires r == GeneratedRust(Little, Index(BOTH), r.plain, RANK) && r.Types() == TheTypes()
    requires r.Types().FiniteSize() && PLAIN <= r.plain
    ensures !r.DeriveAccepts()
  {
    hide Index, IsPacked, MessageTypes.FiniteSize, RustTys;
    IndexOfBoth();
    Names();
    StampedHasPadding(TheTypes(), r.plain);
    StampedTypes(r.plain);
    assert r.messages[STAMPED_NAME] == STAMPED;
  }

  /**
   The generator run on the two messages takes both for plain, in the least plain set there
   is, and the derive rejects what it emits.
   */
  method PaddedSchema() returns (r: ParsedRust)
    ensures r.host == Little && r.messages == Index(BOTH) && r.plain >= PLAIN
    ensures IsClosed(BOTH, r.plain) && forall other :: IsClosed(BOTH, other) ==> r.plain <= other
    ensures !r.DeriveAccepts()
  {
    hide Index, IsClosed, Qualifies, MessageTypes.FiniteSize, GeneratedRust.IsWellFormed;
    hide GeneratedRust.DeriveAccepts;
    IndexOfBoth();
    var g := GenerateRust(Little, BOTH, RANK);
    BothArePlain(g.plain);
    TypesOfBoth(g);
    TypesAreFinite();
    SchemaIsWellFormed(g);
    DeriveRejects(g);
    r := g;
  }
}
