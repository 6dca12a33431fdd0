/**
 The input of a type hash: the main description and the exact closure of what it
 references, each type once, in the order of the names.
 */
module TypeHashing {
  import opened TypeNames
  import opened TypeDescriptions
  import opened TypeClosure

  function Names(deps: Descriptions, keys: set<string>): set<string> {
    set k <- keys | k in deps :: deps[k].typeName
  }

  function Lookup(deps: Descriptions, name: string): TypeDescription {
    if NestedKey(name) in deps then deps[NestedKey(name)] else TypeDescription(name, [])
  }

  function InNameOrder(deps: Descriptions, keys: set<string>): seq<TypeDescription> {
    var names := Sorted(Names(deps, keys));
    seq(|names|, i requires 0 <= i < |names| => Lookup(deps, names[i]))
  }

  // What the hash of a message is computed from, given the registered descriptions.
  ghost function HashInput(m: ParsedMessage, deps: Descriptions): TypeDescriptionMsg {
    TypeDescriptionMsg(MainDescription(m), InNameOrder(deps, Reach(deps, DepKeys(m))))
  }

  /**
   The referenced descriptions are exactly the registered types reachable from the fields,
   in strictly increasing name order and so each once, and never the message itself as long
   as its own key is not among them.
   */
  lemma ReferencedIsTheExactClosure(m: ParsedMessage, deps: Descriptions)
    requires KeysMatch(deps)
    ensures var list := HashInput(m, deps).referenced;
      && (forall d :: d in list <==> exists k <- Reach(deps, DepKeys(m)) :: deps[k] == d)
      && (forall i, j | 0 <= i < j < |list| :: Less(list[i].typeName, list[j].typeName))
      && (WellNamed(m) && MessageKey(m) !in Reach(deps, DepKeys(m)) ==>
            forall d <- list :: d.typeName != MainDescription(m).typeName)
  {
    hide IsReachable, MainDescription;
    var keys := Reach(deps, DepKeys(m));
    var names, list := Sorted(Names(deps, keys)), HashInput(m, deps).referenced;
    assert |list| == |names|;
    forall i | 0 <= i < |names|
      ensures NestedKey(names[i]) in keys && list[i] == deps[NestedKey(names[i])] && list[i].typeName == names[i]
    {
      assert names[i] in names;
      var k :| k in keys && k in deps && deps[k].typeName == names[i];
    }
    forall k | k in keys ensures deps[k] in list {
      assert deps[k].typeName in names;
      var i :| 0 <= i < |names| && names[i] == deps[k].typeName;
      assert list[i] == deps[k];
    }
    if WellNamed(m) && MessageKey(m) !in keys {
      NeverItself(m, list, keys);
    }
  }

  lemma NeverItself(m: ParsedMessage, list: seq<TypeDescription>, keys: set<string>)
    requires WellNamed(m) && MessageKey(m) !in keys
    requires forall i | 0 <= i < |list| :: NestedKey(list[i].typeName) in keys
    ensures forall d <- list :: d.typeName != MainDescription(m).typeName
  {
    SplitFullName(m.package, m.name);
    forall d | d in list ensures d.typeName != MainDescription(m).typeName {
      var i :| 0 <= i < |list| && list[i] == d;
    }
  }

  // ----- building the input -----------------------------------------------------------------------

  // BTreeMap::into_values.
  function ValuesInOrder(types: map<string, TypeDescription>): seq<TypeDescription> {
    var names := Sorted(types.Keys);
    seq(|names|, i requires 0 <= i < |names| && names[i] in types => types[names[i]])
  }

  lemma ValuesAreInNameOrder(c: Collected, deps: Descriptions)
    requires KeysMatch(deps) && c.Inside(deps)
    ensures ValuesInOrder(c.types) == InNameOrder(deps, c.Keys())
  {
    assert c.types.Keys == Names(deps, c.Keys()) by {
      forall n | n in c.types ensures n in Names(deps, c.Keys()) {
        assert NestedKey(n) in c.Keys();
      }
    }
  }

  // The types the fields of a message refer to, in the order the hash walks them.
  function DepKeyList(m: ParsedMessage, i: nat): (r: seq<string>)
    requires i <= |m.fields|
    decreases |m.fields| - i
  {
    if i == |m.fields| then []
    else if IsPrimitive(m.fields[i].fieldType.baseType) then DepKeyList(m, i + 1)
    else [DepKey(m.fields[i], m.package)] + DepKeyList(m, i + 1)
  }

  lemma {:induction false} DepKeyListIsComplete(m: ParsedMessage, i: nat)
    requires i <= |m.fields|
    ensures forall k :: k in DepKeyList(m, i) <==>
      exists j | i <= j < |m.fields| ::
        !IsPrimitive(m.fields[j].fieldType.baseType) && k == DepKey(m.fields[j], m.package)
    decreases |m.fields| - i
  {
    hide IsPrimitive, DepKey;
    if i < |m.fields| {
      DepKeyListIsComplete(m, i + 1);
    }
  }

  // Hashing a message comes to an end exactly when its fields reach no cycle.
  lemma HashingTerminatesExactly(m: ParsedMessage, deps: Descriptions)
    ensures WalkEnds(deps, DepKeyList(m, 0)) <==> IsAcyclicBelow(deps, DepKeys(m))
  {
    hide IsPrimitive, DepKey, IsAcyclicBelow, WalkEnds;
    DepKeyListIsComplete(m, 0);
    forall k | k in DepKeyList(m, 0) ensures k in DepKeys(m) {
      var j :| 0 <= j < |m.fields|
        && !IsPrimitive(m.fields[j].fieldType.baseType) && k == DepKey(m.fields[j], m.package);
      assert m.fields[j] in m.fields;
    }
    forall k | k in DepKeys(m) ensures k in DepKeyList(m, 0) {
      var f :| f in m.fields && !IsPrimitive(f.fieldType.baseType) && k == DepKey(f, m.package);
      var j :| 0 <= j < |m.fields| && m.fields[j] == f;
    }
    WalkTerminatesExactly(deps, DepKeyList(m, 0), DepKeys(m));
  }

  method BuildTypeDescriptionMsg(m: ParsedMessage, deps: Descriptions, ghost rank: map<string, nat>)
    returns (r: Option<TypeDescriptionMsg>)
    requires WellNamed(m) && KeysMatch(deps) && IsRankedWithin(deps, rank, Reach(deps, DepKeys(m)))
    ensures r == if IsSupported(m) then Some(HashInput(m, deps)) else None
  {
    hide IsPrimitive, GetTypeId, MainField, MainDescription, DepKey, IsReachable, IsClosed, NestedKey, Links;
    hide FullyNamed, IsRankedWithin, Walk;
    ghost var bound := Reach(deps, DepKeys(m));
    ReachIsClosed(deps, DepKeys(m));
    var fields: seq<FieldDescription> := [];
    var referenced := new Collected();
    assert referenced.Keys() == {};
    NothingIsClosed(deps);
    if m.fields == [] {
      fields := [PLACEHOLDER];
    }
    for i := 0 to |m.fields|
      invariant forall j | 0 <= j < i :: GetTypeId(m.fields[j].fieldType).Some?
      invariant fields == MainFieldsUpTo(m, i)
      invariant referenced.Inside(deps) && IsClosed(deps, referenced.Keys()) && referenced.Keys() <= bound
      invariant forall j | 0 <= j < i && !IsPrimitive(m.fields[j].fieldType.baseType) ::
        DepKey(m.fields[j], m.package) in deps ==> DepKey(m.fields[j], m.package) in referenced.Keys()
    {
      var f := m.fields[i];
      assert f in m.fields;
      var typeId := GetTypeId(f.fieldType);
      if typeId.None? {
        return None;
      }
      fields := fields + [MainField(f, m.package)];
      if !IsPrimitive(f.fieldType.baseType) {
        var depKey := DepKey(f, m.package);
        assert depKey in DepKeys(m);
        if depKey in deps {
          RegisteredLinks(deps, rank, depKey, bound);
          referenced.CollectReferencedTypes(deps[depKey], deps, rank, rank[depKey], bound);
          ClosedWithOneMore(deps, referenced.Keys(), depKey);
          referenced.Insert(deps, deps[depKey]);
        }
      }
    }
    assert IsSupported(m);
    assert referenced.Keys() == bound by {
      ReachIsLeast(deps, DepKeys(m), referenced.Keys());
    }
    ValuesAreInNameOrder(referenced, deps);
    AllMainFields(m);
    r := Some(TypeDescriptionMsg(
                TypeDescription(FullName(m.package, m.name), fields), ValuesInOrder(referenced.types)));
  }

  // The fields built from the first i fields of the message; the placeholder stands alone.
  function MainFieldsUpTo(m: ParsedMessage, i: nat): seq<FieldDescription>
    requires i <= |m.fields|
  {
    if m.fields == [] then [PLACEHOLDER]
    else seq(i, j requires 0 <= j < i => MainField(m.fields[j], m.package))
  }

  lemma AllMainFields(m: ParsedMessage)
    ensures MainDescription(m) == TypeDescription(FullName(m.package, m.name), MainFieldsUpTo(m, |m.fields|))
  {
  }

  lemma NothingIsClosed(deps: Descriptions)
    ensures IsClosed(deps, {})
  {
  }

  /**
   From an empty map the two traversals collect the same descriptions: the closure of what
   the type refers to.
   */
  method BothTraversals(desc: TypeDescription, deps: Descriptions, ghost rank: map<string, nat>)
    returns (post: map<string, TypeDescription>, pre: map<string, TypeDescription>)
    requires KeysMatch(deps) && FullyNamed(desc) && IsRankedWithin(deps, rank, Reach(deps, Links(desc.fields)))
    ensures post == pre
    ensures forall n :: n in post <==> exists k <- Reach(deps, Links(desc.fields)) :: deps[k].typeName == n
    ensures forall n <- post :: NestedKey(n) in deps && post[n] == deps[NestedKey(n)]
  {
    hide IsReachable, Links, FullyNamed, Walk, IsRankedWithin, IsClosed;
    ghost var roots := Links(desc.fields);
    ghost var bound := Reach(deps, roots);
    ReachIsClosed(deps, roots);
    NothingIsClosed(deps);
    RankedKeys(deps, rank, bound);
    ghost var height := MaxRank(bound, rank) + 1;
    var a := new Collected();
    assert a.Keys() == {};
    a.CollectReferencedTypes(desc, deps, rank, height, bound);
    ReachIsLeast(deps, roots, a.Keys());
    var b := new Collected();
    b.CollectNestedDeps(desc, deps, bound);
    CollectedIsClosed(deps, b.Keys());
    ReachIsLeast(deps, roots, b.Keys());
    SameKeysSameTypes(a, b, deps);
    post, pre := a.types, b.types;
  }

  lemma RankedKeys(deps: Descriptions, rank: map<string, nat>, s: set<string>)
    requires IsRankedWithin(deps, rank, s) && s <= deps.Keys
    ensures s <= rank.Keys
  {
  }

  lemma CollectedIsClosed(deps: Descriptions, s: set<string>)
    requires s <= deps.Keys && forall k <- s :: Links(deps[k].fields) * deps.Keys <= s
    ensures IsClosed(deps, s)
  {
  }

  lemma SameKeysSameTypes(a: Collected, b: Collected, deps: Descriptions)
    requires KeysMatch(deps) && a.Inside(deps) && b.Inside(deps) && a.Keys() == b.Keys() <= deps.Keys
    ensures a.types == b.types
    ensures forall n :: n in a.types <==> exists k <- a.Keys() :: deps[k].typeName == n
  {
    forall n ensures n in a.types <==> exists k <- a.Keys() :: deps[k].typeName == n {
      ByName(a, deps, n);
    }
    forall n ensures n in b.types <==> exists k <- b.Keys() :: deps[k].typeName == n {
      ByName(b, deps, n);
    }
    assert a.types.Keys == b.types.Keys;
  }

  lemma ByName(c: Collected, deps: Descriptions, n: string)
    requires KeysMatch(deps) && c.Inside(deps) && c.Keys() <= deps.Keys
    ensures n in c.types <==> exists k <- c.Keys() :: deps[k].typeName == n
  {
    if n in c.types {
      assert NestedKey(n) in c.Keys();
    }
  }
}
