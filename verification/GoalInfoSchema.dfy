/**
 A schema that fails the agreement check although every part of it compiles: a
 message with two `action_msgs/GoalInfo` behind an octet.
 */
module GoalInfoSchema {
  import opened CdrWire
  import opened CdrLayout
  import opened CdrBlocks
  import opened TypeNames
  import opened TypeDescriptions
  import opened RustGenerator
  import opened JsonManifest
  import opened GoAgreement

  const HOLDER: ParsedMessage :=
    ParsedMessage("p", "Holder",
                  [NumberField("n", "uint8", Single),
                   Field("goals", FieldType("GoalInfo", Some("action_msgs"), Fixed(2), None)),
                   Field("label", FieldType("string", None, Single, None))])

  const ALL: seq<ParsedMessage> := [UUID, TIME_MESSAGE, GOAL_INFO, HOLDER]

  const PLAIN: set<PlainKey> := {KeyOf(UUID), KeyOf(TIME_MESSAGE), KeyOf(GOAL_INFO)}

  const UUID_NAME: string := "unique_identifier_msgs/UUID"
  const TIME_NAME: string := "builtin_interfaces/Time"
  const GOAL_NAME: string := "action_msgs/GoalInfo"
  const HOLDER_NAME: string := "p/Holder"

  const RANK: map<string, nat> := map[UUID_NAME := 0, TIME_NAME := 0, GOAL_NAME := 1, HOLDER_NAME := 2]

  // ----- the messages ---------------------------------------------------------------

  lemma Names()
    ensures MessageKey(UUID) == UUID_NAME && MessageKey(TIME_MESSAGE) == TIME_NAME
    ensures MessageKey(GOAL_INFO) == GOAL_NAME && MessageKey(HOLDER) == HOLDER_NAME
    ensures |UUID_NAME| == 27 && |TIME_NAME| == 23 && |GOAL_NAME| == 20 && |HOLDER_NAME| == 8
  {
  }

  lemma IndexOfAll()
    ensures HaveDistinctKeys(ALL)
    ensures Index(ALL) ==
      map[UUID_NAME := UUID, TIME_NAME := TIME_MESSAGE, GOAL_NAME := GOAL_INFO, HOLDER_NAME := HOLDER]
  {
    hide MessageKey;
    Names();
    assert ALL[1..] == [TIME_MESSAGE, GOAL_INFO, HOLDER];
    assert [TIME_MESSAGE, GOAL_INFO, HOLDER][1..] == [GOAL_INFO, HOLDER];
    assert [GOAL_INFO, HOLDER][1..] == [HOLDER] && [HOLDER][1..] == [];
    assert Index([]) == map[];
    assert Index([HOLDER]) == map[HOLDER_NAME := HOLDER];
    assert Index([GOAL_INFO, HOLDER]) == map[HOLDER_NAME := HOLDER, GOAL_NAME := GOAL_INFO];
  }

  // A string keeps the holder itself from being plain.
  lemma HolderIsNotPlain(plain: set<PlainKey>)
    ensures !Qualifies(HOLDER, plain)
  {
    assert HOLDER.fields[2] in HOLDER.fields;
  }

  lemma PlainSet(plain: set<PlainKey>)
    requires IsClosed(ALL, plain) && IsSupportedBy(ALL, plain)
    ensures plain == PLAIN
  {
    hide IsClosed, Qualifies;
    GoalInfoIsPlain(ALL, plain);
    NumbersQualify(plain);
    Admits(ALL, plain, UUID);
    Admits(ALL, plain, TIME_MESSAGE);
    HolderIsNotPlain(plain);
  }

  lemma UuidIsWellNamed()
    ensures WellNamed(UUID)
  {
  }

  lemma TimeIsWellNamed()
    ensures WellNamed(TIME_MESSAGE)
  {
  }

  lemma GoalInfoIsWellNamed()
    ensures WellNamed(GOAL_INFO)
  {
  }

  lemma HolderIsWellNamed()
    ensures WellNamed(HOLDER)
  {
  }

  // ----- their types --------------------------------------------------------------------

  lemma UuidTypes()
    ensures RustTys(Little, PLAIN, UUID.fields, UUID.package) == [TBulkArray(16, TPrim(U8))]
  {
  }

  lemma TimeTypes()
    ensures RustTys(Little, PLAIN, TIME_MESSAGE.fields, TIME_MESSAGE.package) == [TPrim(I32), TPrim(U32)]
  {
  }

  lemma GoalTypes()
    ensures RustTys(Little, PLAIN, GOAL_INFO.fields, GOAL_INFO.package) == [TMsg(UUID_NAME), TMsg(TIME_NAME)]
  {
    Names();
  }

  lemma HolderTypes()
    ensures RustTys(Little, PLAIN, HOLDER.fields, HOLDER.package)
         == [TPrim(U8), TBulkArray(2, TMsg(GOAL_NAME)), TString]
  {
    Names();
    assert KeyOf(GOAL_INFO) == PlainKey(Some("action_msgs"), "GoalInfo");
  }

  function TheTypes(): MessageTypes {
    MessageTypes(
      map[UUID_NAME := [TBulkArray(16, TPrim(U8))],
          TIME_NAME := [TPrim(I32), TPrim(U32)],
          GOAL_NAME := [TMsg(UUID_NAME), TMsg(TIME_NAME)],
          HOLDER_NAME := [TPrim(U8), TBulkArray(2, TMsg(GOAL_NAME)), TString]],
      RANK)
  }

  lemma TypesOfAll(r: GeneratedRust)
    requires r == GeneratedRust(Little, Index(ALL), PLAIN, RANK)
    ensures r.Types() == TheTypes()
  {
    hide RustTys;
    IndexOfAll();
    Names();
    UuidTypes();
    TimeTypes();
    GoalTypes();
    HolderTypes();
    assert r.Types().types == TheTypes().types;
  }

  lemma RankOfFields(t: MessageTypes, ts: seq<Ty>, rest: seq<Ty>)
    requires ts != [] && ts[1..] == rest
    ensures t.RankAll([]) == 0
    ensures t.RankAll(ts) == if t.Rank(ts[0]) < t.RankAll(rest) then t.RankAll(rest) else t.Rank(ts[0])
  {
  }

  lemma TypesAreFinite()
    ensures TheTypes().FiniteSize()
  {
    hide MessageTypes.RankAll;
    var t := TheTypes();
    Names();
    RankOfFields(t, t.types[UUID_NAME], []);
    RankOfFields(t, [TPrim(U32)], []);
    RankOfFields(t, t.types[TIME_NAME], [TPrim(U32)]);
    RankOfFields(t, [TMsg(TIME_NAME)], []);
    RankOfFields(t, t.types[GOAL_NAME], [TMsg(TIME_NAME)]);
    RankOfFields(t, [TString], []);
    RankOfFields(t, [TBulkArray(2, TMsg(GOAL_NAME)), TString], [TString]);
    RankOfFields(t, t.types[HOLDER_NAME], [TBulkArray(2, TMsg(GOAL_NAME)), TString]);
  }

  // ----- the schema -------------------------------------------------------------------------

  lemma GoalLayout(p: Program)
    requires p == TheTypes()
    ensures IsPlain(p, TMsg(UUID_NAME)) && IsPlain(p, TMsg(TIME_NAME)) && IsPlain(p, TMsg(GOAL_NAME))
    ensures SizeOf(p, TMsg(GOAL_NAME)) > 0 && SizeOf(p, TPrim(U8)) > 0
    ensures !BlocksFit(Little, p, TBulkArray(2, TMsg(GOAL_NAME)))
  {
    hide IsPlain, SizeOf, FitsEverywhere;
    Names();
    UuidLayout(p);
    TimeLayout(p);
    GoalInfoIsMisplaced(p);
    OctetLayout(p);
  }

  /**
   The generator run on the four messages gives a schema whose derives are accepted and whose
   holder the two languages, and the two Rust paths, write differently somewhere.
   */
  method UnsafeSchema() returns (r: RustSchema)
    ensures r.messages == Index(ALL) && HasNoTimeNames(r.messages)
    ensures IsClosed(ALL, r.plain) && forall other :: IsClosed(ALL, other) ==> r.plain <= other
    ensures !IsSafe(r)
  {
    hide Index, IsClosed, Qualifies, MessageTypes.FiniteSize, GeneratedRust.IsWellFormed;
    hide GeneratedRust.DeriveAccepts, IsSafe, HasNoTimeNames;
    IndexOfAll();
    var g := GenerateRust(Little, ALL, RANK);
    SupportedInList(g.plain);
    PlainSet(g.plain);
    TypesOfAll(g);
    TypesAreFinite();
    GoalLayout(TheTypes());
    SchemaIsWellFormed(g);
    r := g;
    SchemaIsUnsafe(r);
  }

  lemma SupportedInList(plain: set<PlainKey>)
    requires HaveDistinctKeys(ALL)
    requires forall k <- plain :: exists m <- Index(ALL).Values :: KeyOf(m) == k && Qualifies(m, plain)
    ensures IsSupportedBy(ALL, plain)
  {
    hide Qualifies, MessageKey, Index;
    IndexHoldsAll(ALL);
  }

  lemma SchemaIsWellFormed(r: GeneratedRust)
    requires r == GeneratedRust(Little, Index(ALL), PLAIN, RANK) && r.Types() == TheTypes()
    requires TheTypes().FiniteSize()
    ensures r.IsWellFormed() && r.DeriveAccepts()
  {
    hide Index, Qualifies, WellNamed, MessageKey, MessageTypes.FiniteSize;
    hide GeneratedRust.BlocksHaveBytes, GeneratedRust.DeriveAccepts, GeneratedRust.Types;
    MessagesFit();
    PlainSetQualifies();
    ElementsHaveBytes(r);
    DeriveIsAccepted(r);
  }

  lemma MessagesFit()
    ensures forall k <- Index(ALL) :: MessageKey(Index(ALL)[k]) == k && WellNamed(Index(ALL)[k])
  {
    hide Index, WellNamed;
    IndexOfAll();
    Names();
    UuidIsWellNamed();
    TimeIsWellNamed();
    GoalInfoIsWellNamed();
    HolderIsWellNamed();
  }

  lemma PlainSetQualifies()
    ensures forall k <- PLAIN :: exists m <- Index(ALL).Values :: KeyOf(m) == k && Qualifies(m, PLAIN)
  {
    hide Index, Qualifies;
    IndexOfAll();
    NumbersQualify(PLAIN);
    GoalInfoQualifies(PLAIN);
    var values := Index(ALL).Values;
    assert UUID == Index(ALL)[UUID_NAME] && TIME_MESSAGE == Index(ALL)[TIME_NAME] && GOAL_INFO == Index(ALL)[GOAL_NAME];
    assert UUID in values && TIME_MESSAGE in values && GOAL_INFO in values;
  }

  // The elements that are copied in bulk.
  lemma BulkElements(m: ParsedMessage, f: Field)
    requires m in ALL && f in m.fields && IsBulk(Little, PLAIN, f.fieldType, m.package)
    ensures RustElemTy(f.fieldType, m.package) in {TPrim(U8), TMsg(GOAL_NAME)}
  {
    Names();
  }

  lemma ElementsHaveBytes(r: GeneratedRust)
    requires r == GeneratedRust(Little, Index(ALL), PLAIN, RANK) && r.Types() == TheTypes()
    requires r.Types().FiniteSize()
    ensures r.BlocksHaveBytes()
  {
    hide Index, SizeOf, IsBulk, RustElemTy, MessageTypes.FiniteSize, GeneratedRust.Types, TheTypes;
    IndexOfAll();
    GoalLayout(TheTypes());
    forall k, f |
      k in r.messages && f in r.messages[k].fields && IsBulk(r.host, r.plain, f.fieldType, r.messages[k].package)
      ensures SizeOf(r.Types(), RustElemTy(f.fieldType, r.messages[k].package)) > 0
    {
      BulkElements(r.messages[k], f);
    }
  }

  lemma DeriveIsAccepted(r: GeneratedRust)
    requires r == GeneratedRust(Little, Index(ALL), PLAIN, RANK) && r.Types() == TheTypes()
    requires r.Types().FiniteSize()
    ensures r.DeriveAccepts()
  {
    hide Index, IsPlain, IsPacked, MessageTypes.FiniteSize, GeneratedRust.Types, TheTypes, SizeOf, BlocksFit;
    var p: Program := TheTypes();
    IndexOfAll();
    GoalLayout(p);
    PlainMessageIsPacked(p, UUID_NAME);
    PlainMessageIsPacked(p, TIME_NAME);
    PlainMessageIsPacked(p, GOAL_NAME);
    HolderIsOutside();
  }

  lemma HolderIsOutside()
    ensures KeyOf(HOLDER) !in PLAIN
  {
  }

  lemma SchemaIsUnsafe(r: RustSchema)
    requires r.host == Little && r.messages == Index(ALL) && r.plain == PLAIN && r.Types() == TheTypes()
    ensures !IsSafe(r) && HasNoTimeNames(r.messages)
  {
    hide Index, BlocksFit, IsPlain, SizeOf, RustTys, GeneratedRust.IsWellFormed, GeneratedRust.DeriveAccepts;
    hide GeneratedRust.Types, TheTypes, RustTy;
    IndexOfAll();
    GoalLayout(RustProgram(r));
    GoalsAreABlock();
    var f := HOLDER.fields[1];
    assert f in HOLDER.fields && r.messages[HOLDER_NAME] == HOLDER;
    assert !IsFieldSafe(r, f, HOLDER.package);
    NoTimes();
  }

  lemma GoalsAreABlock()
    ensures RustTy(Little, PLAIN, HOLDER.fields[1], HOLDER.package) == TBulkArray(2, TMsg(GOAL_NAME))
  {
    HolderTypes();
    assert RustTys(Little, PLAIN, HOLDER.fields, HOLDER.package)[1] == TBulkArray(2, TMsg(GOAL_NAME));
  }

  lemma NoTimes()
    ensures HasNoTimeNames(Index(ALL))
  {
    hide Index;
    IndexOfAll();
    assert forall m <- ALL :: forall f <- m.fields :: !IsTimeName(f.fieldType.baseType);
  }
}
