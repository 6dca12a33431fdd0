/**
 The transitive closure of the types a message references, and the two
 traversals that compute it: post-order for type hashes, pre-order for services.
 */
module TypeClosure {
  import opened TypeNames
  import opened TypeDescriptions

  type Descriptions = map<string, TypeDescription>

  // ----- reachability -----------------------------------------------------------------------

  // A chain of registered types: the first is a root, each refers to the next.
  predicate IsPath(deps: Descriptions, roots: set<string>, p: seq<string>) {
    && p != []
    && p[0] in roots
    && (forall i | 0 <= i < |p| :: p[i] in deps)
    && forall i | 0 < i < |p| :: p[i] in Links(deps[p[i - 1]].fields)
  }

  ghost predicate IsReachable(deps: Descriptions, roots: set<string>, k: string) {
    exists p :: IsPath(deps, roots, p) && p[|p| - 1] == k
  }

  ghost function Reach(deps: Descriptions, roots: set<string>): set<string> {
    set k <- deps.Keys | IsReachable(deps, roots, k)
  }

  // Whatever a member refers to is a member, as far as it is registered.
  predicate IsClosed(deps: Descriptions, s: set<string>) {
    forall k <- s | k in deps :: Links(deps[k].fields) * deps.Keys <= s
  }

  lemma ReachIsClosed(deps: Descriptions, roots: set<string>)
    ensures roots * deps.Keys <= Reach(deps, roots) && IsClosed(deps, Reach(deps, roots))
  {
    hide Links;
    forall k | k in roots && k in deps ensures k in Reach(deps, roots) {
      assert IsPath(deps, roots, [k]);
    }
    forall k, l | k in Reach(deps, roots) && l in Links(deps[k].fields) && l in deps
      ensures l in Reach(deps, roots)
    {
      OneStepFurther(deps, roots, k, l);
    }
  }

  lemma OneStepFurther(deps: Descriptions, roots: set<string>, k: string, l: string)
    requires IsReachable(deps, roots, k) && k in deps && l in Links(deps[k].fields) && l in deps
    ensures IsReachable(deps, roots, l)
  {
    hide Links;
    var p :| IsPath(deps, roots, p) && p[|p| - 1] == k;
    assert IsPath(deps, roots, p + [l]);
  }

  // Nothing smaller is closed and holds the roots.
  lemma ReachIsLeast(deps: Descriptions, roots: set<string>, s: set<string>)
    requires roots * deps.Keys <= s && IsClosed(deps, s)
    ensures Reach(deps, roots) <= s
  {
    forall k | k in Reach(deps, roots) ensures k in s {
      var p :| IsPath(deps, roots, p) && p[|p| - 1] == k;
      PathStaysInside(deps, roots, p, s, |p| - 1);
    }
  }

  lemma {:induction false} PathStaysInside(
    deps: Descriptions, roots: set<string>, p: seq<string>, s: set<string>, i: nat)
    requires roots * deps.Keys <= s && IsClosed(deps, s)
    requires IsPath(deps, roots, p) && i < |p|
    ensures p[i] in s
  {
    if i > 0 {
      PathStaysInside(deps, roots, p, s, i - 1);
      assert p[i] in Links(deps[p[i - 1]].fields) * deps.Keys;
    }
  }

  // ----- well-formed registries ---------------------------------------------------------------

  // Every key matches the full name of its description, and every reference is a full name.
  ghost predicate KeysMatch(deps: Descriptions) {
    forall k <- deps :: FullyNamed(deps[k]) && NestedKey(deps[k].typeName) == k
  }

  // A rank that falls along every reference from a member to a registered type.
  predicate IsRankedWithin(deps: Descriptions, rank: map<string, nat>, s: set<string>) {
    forall k <- s | k in deps ::
      k in rank && forall l <- Links(deps[k].fields) | l in deps :: l in rank && rank[l] < rank[k]
  }

  // No cycle can be reached from the roots.
  ghost predicate IsAcyclicBelow(deps: Descriptions, roots: set<string>) {
    exists rank :: IsRankedWithin(deps, rank, Reach(deps, roots))
  }

  // A rank that falls along every reference between registered types.
  predicate IsRanked(deps: Descriptions, rank: map<string, nat>) {
    forall k <- deps :: k in rank && forall l <- Links(deps[k].fields) | l in deps :: l in rank && rank[l] < rank[k]
  }

  // ----- when the post-order walk terminates ----------------------------------------------------

  /**
   The recursion of `collect_referenced_types` on keys, to a depth: the keys collected behind
   a field list, or None when the depth does not suffice.
   */
  function Walk(deps: Descriptions, fields: seq<FieldDescription>, s: set<string>, depth: nat): Option<set<string>>
    decreases depth, fields
  {
    if fields == [] then Some(s)
    else
      var name, rest := fields[0].nestedTypeName, fields[1..];
      var key := NestedKey(name);
      if name == "" || key !in deps || key in s then Walk(deps, rest, s, depth)
      else if depth == 0 then None
      else
        var below := Walk(deps, deps[key].fields, s, depth - 1);
        if below.None? then None else Walk(deps, rest, below.value + {key}, depth)
  }

  // The same behind the fields of a message, whose types are walked whether collected or not.
  function WalkRoots(deps: Descriptions, roots: seq<string>, s: set<string>, depth: nat): Option<set<string>> {
    if roots == [] then Some(s)
    else if roots[0] !in deps then WalkRoots(deps, roots[1..], s, depth)
    else
      var below := Walk(deps, deps[roots[0]].fields, s, depth);
      if below.None? then None else WalkRoots(deps, roots[1..], below.value + {roots[0]}, depth)
  }

  lemma FirstLink(fields: seq<FieldDescription>)
    requires fields != []
    ensures Links(fields)
         == Links(fields[1..]) + if fields[0].nestedTypeName == "" then {} else {NestedKey(fields[0].nestedTypeName)}
  {
    hide NestedKey;
    assert fields == [fields[0]] + fields[1..];
  }

  // What a walk has collected is closed and has no cycle.
  ghost predicate IsWellFounded(deps: Descriptions, s: set<string>) {
    s <= deps.Keys && IsClosed(deps, s) && exists rank :: IsRankedWithin(deps, rank, s)
  }

  lemma OneMoreIsWellFounded(deps: Descriptions, s: set<string>, k: string)
    requires IsWellFounded(deps, s) && k in deps && Links(deps[k].fields) * deps.Keys <= s
    ensures IsWellFounded(deps, s + {k})
  {
    hide Links;
    ClosedWithOneMore(deps, s, k);
    var rank :| IsRankedWithin(deps, rank, s);
    if k in s {
      assert s + {k} == s;
    } else {
      var top := MaxRank(s, rank) + 1;
      assert IsRankedWithin(deps, rank[k := top], s + {k});
    }
  }

  ghost function MaxRank(keys: set<string>, rank: map<string, nat>): (r: nat)
    requires keys <= rank.Keys
    ensures forall k <- keys :: rank[k] <= r
  {
    if keys == {} then 0
    else
      var k :| k in keys;
      var rest := MaxRank(keys - {k}, rank);
      if rest < rank[k] then rank[k] else rest
  }

  lemma {:induction false} WalkIsWellFounded(
    deps: Descriptions, fields: seq<FieldDescription>, s: set<string>, depth: nat)
    requires IsWellFounded(deps, s) && Walk(deps, fields, s, depth).Some?
    ensures var t := Walk(deps, fields, s, depth).value;
      s <= t && IsWellFounded(deps, t) && Links(fields) * deps.Keys <= t
    decreases depth, fields
  {
    hide Links, NestedKey, IsWellFounded;
    if fields == [] {
      NoLinks(fields);
    } else {
      var name, rest := fields[0].nestedTypeName, fields[1..];
      var key := NestedKey(name);
      FirstLink(fields);
      if name == "" || key !in deps || key in s {
        WalkIsWellFounded(deps, rest, s, depth);
      } else {
        WalkIsWellFounded(deps, deps[key].fields, s, depth - 1);
        var below := Walk(deps, deps[key].fields, s, depth - 1).value;
        OneMoreIsWellFounded(deps, below, key);
        WalkIsWellFounded(deps, rest, below + {key}, depth);
      }
    }
  }

  lemma {:induction false} WalkRootsIsWellFounded(deps: Descriptions, roots: seq<string>, s: set<string>, depth: nat)
    requires IsWellFounded(deps, s) && WalkRoots(deps, roots, s, depth).Some?
    ensures var t := WalkRoots(deps, roots, s, depth).value;
      s <= t && IsWellFounded(deps, t) && forall k <- roots | k in deps :: k in t
    decreases roots
  {
    hide Links, IsWellFounded, Walk;
    if roots != [] {
      if roots[0] !in deps {
        WalkRootsIsWellFounded(deps, roots[1..], s, depth);
      } else {
        WalkIsWellFounded(deps, deps[roots[0]].fields, s, depth);
        var below := Walk(deps, deps[roots[0]].fields, s, depth).value;
        OneMoreIsWellFounded(deps, below, roots[0]);
        WalkRootsIsWellFounded(deps, roots[1..], below + {roots[0]}, depth);
      }
    }
  }

  // A rank bounds the depth.
  lemma {:induction false} RankBoundsTheWalk(
    deps: Descriptions, fields: seq<FieldDescription>, s: set<string>,
    rank: map<string, nat>, bound: set<string>, depth: nat)
    requires IsClosed(deps, bound) && IsRankedWithin(deps, rank, bound) && Links(fields) * deps.Keys <= bound
    requires forall l <- Links(fields) | l in deps :: rank[l] < depth
    ensures Walk(deps, fields, s, depth).Some?
    decreases depth, fields
  {
    hide Links, NestedKey, IsClosed;
    if fields != [] {
      var name, rest := fields[0].nestedTypeName, fields[1..];
      var key := NestedKey(name);
      FirstLink(fields);
      if name == "" || key !in deps || key in s {
        RankBoundsTheWalk(deps, rest, s, rank, bound, depth);
      } else {
        ClosedLinks(deps, bound, key);
        RankBoundsTheWalk(deps, deps[key].fields, s, rank, bound, depth - 1);
        var below := Walk(deps, deps[key].fields, s, depth - 1).value;
        RankBoundsTheWalk(deps, rest, below + {key}, rank, bound, depth);
      }
    }
  }

  lemma ClosedLinks(deps: Descriptions, s: set<string>, k: string)
    requires IsClosed(deps, s) && k in s && k in deps
    ensures Links(deps[k].fields) * deps.Keys <= s
  {
  }

  lemma {:induction false} RankBoundsTheRoots(
    deps: Descriptions, roots: seq<string>, s: set<string>, rank: map<string, nat>, bound: set<string>, depth: nat)
    requires IsClosed(deps, bound) && IsRankedWithin(deps, rank, bound)
    requires forall k <- roots | k in deps :: k in bound && rank[k] <= depth
    ensures WalkRoots(deps, roots, s, depth).Some?
    decreases roots
  {
    hide Links, IsClosed, Walk;
    if roots != [] {
      if roots[0] !in deps {
        RankBoundsTheRoots(deps, roots[1..], s, rank, bound, depth);
      } else {
        ClosedLinks(deps, bound, roots[0]);
        RankBoundsTheWalk(deps, deps[roots[0]].fields, s, rank, bound, depth);
        var below := Walk(deps, deps[roots[0]].fields, s, depth).value;
        RankBoundsTheRoots(deps, roots[1..], below + {roots[0]}, rank, bound, depth);
      }
    }
  }

  ghost predicate WalkEnds(deps: Descriptions, roots: seq<string>) {
    exists depth :: WalkRoots(deps, roots, {}, depth).Some?
  }

  /**
   The recursion behind the fields of a message comes to an end, at some depth, exactly when
   no cycle can be reached from them. Cycles elsewhere in the registry do not matter.
   */
  lemma WalkTerminatesExactly(deps: Descriptions, roots: seq<string>, keys: set<string>)
    requires forall k :: k in keys <==> k in roots
    ensures WalkEnds(deps, roots) <==> IsAcyclicBelow(deps, keys)
  {
    hide Links, IsReachable, Walk, WalkRoots;
    var bound := Reach(deps, keys);
    ReachIsClosed(deps, keys);
    if depth :| WalkRoots(deps, roots, {}, depth).Some? {
      NothingIsWellFounded(deps);
      WalkRootsIsWellFounded(deps, roots, {}, depth);
      var t := WalkRoots(deps, roots, {}, depth).value;
      ReachIsLeast(deps, keys, t);
      var rank :| IsRankedWithin(deps, rank, t);
      assert IsRankedWithin(deps, rank, bound);
    }
    if IsAcyclicBelow(deps, keys) {
      var rank :| IsRankedWithin(deps, rank, bound);
      RankBoundsTheRoots(deps, roots, {}, rank, bound, MaxRank(bound, rank));
    }
  }

  lemma NothingIsWellFounded(deps: Descriptions)
    ensures IsWellFounded(deps, {})
  {
    assert IsRankedWithin(deps, map[], {});
  }

  // More depth changes nothing once it suffices.
  lemma {:induction false} DepthSuffices(
    deps: Descriptions, fields: seq<FieldDescription>, s: set<string>, depth: nat, more: nat)
    requires depth <= more && Walk(deps, fields, s, depth).Some?
    ensures Walk(deps, fields, s, more) == Walk(deps, fields, s, depth)
    decreases depth, fields
  {
    hide NestedKey;
    if fields != [] {
      var name, rest := fields[0].nestedTypeName, fields[1..];
      var key := NestedKey(name);
      if name == "" || key !in deps || key in s {
        DepthSuffices(deps, rest, s, depth, more);
      } else {
        DepthSuffices(deps, deps[key].fields, s, depth - 1, more - 1);
        DepthSuffices(deps, rest, Walk(deps, deps[key].fields, s, depth - 1).value + {key}, depth, more);
      }
    }
  }

  // ----- the traversals -------------------------------------------------------------------------

  // The map the traversals fill: descriptions by full name.
  class Collected {
    var types: map<string, TypeDescription>

    constructor ()
      ensures types == map[]
    {
      types := map[];
    }

    ghost function Keys(): set<string>
      reads this
    {
      set n <- types :: NestedKey(n)
    }

    // Every entry is a registered description under its own name.
    ghost predicate Inside(deps: Descriptions)
      reads this
    {
      forall n <- types ::
        IsFullName(n) && NestedKey(n) in deps && types[n] == deps[NestedKey(n)] && types[n].typeName == n
    }

    lemma HasName(deps: Descriptions, n: string)
      requires KeysMatch(deps) && Inside(deps) && IsFullName(n)
      ensures n in types <==> NestedKey(n) in Keys()
    {
      if NestedKey(n) in Keys() {
        var m :| m in types && NestedKey(m) == NestedKey(n);
        KeysAreUnique(n, m);
      }
    }

    method Insert(deps: Descriptions, dep: TypeDescription)
      requires KeysMatch(deps) && Inside(deps)
      requires NestedKey(dep.typeName) in deps && deps[NestedKey(dep.typeName)] == dep
      modifies this
      ensures Inside(deps) && Keys() == old(Keys()) + {NestedKey(dep.typeName)}
    {
      ghost var before := types;
      types := types[dep.typeName := dep];
      assert types.Keys == before.Keys + {dep.typeName};
    }

    /**
     `collect_referenced_types`: a type is inserted after everything it refers to. The rank
     makes it terminate, and it need fall only inside `bound`, whatever closed set that is.
     Afterwards the map is still dependency-closed, holds every reference and nothing outside
     `bound`, and its keys are those of the walk.
     */
    method CollectReferencedTypes(
        desc: TypeDescription, deps: Descriptions,
        ghost rank: map<string, nat>, ghost height: nat, ghost bound: set<string>)
      requires KeysMatch(deps) && IsRankedWithin(deps, rank, bound) && FullyNamed(desc)
      requires Inside(deps) && IsClosed(deps, Keys())
      requires IsClosed(deps, bound) && Keys() <= bound && Links(desc.fields) * deps.Keys <= bound
      requires forall l <- Links(desc.fields) | l in deps :: l in bound && rank[l] < height
      modifies this
      ensures Inside(deps) && IsClosed(deps, Keys())
      ensures old(Keys()) + Links(desc.fields) * deps.Keys <= Keys() <= bound
      ensures Walk(deps, desc.fields, old(Keys()), height) == Some(Keys())
      decreases height
    {
      hide IsClosed, FullyNamed, Links, Walk, IsRankedWithin, NestedKey;
      ghost var before := Keys();
      assert desc.fields[0..] == desc.fields;
      assert Links(desc.fields[..0]) == {} by {
        NoLinks(desc.fields);
      }
      for i := 0 to |desc.fields|
        invariant Inside(deps) && IsClosed(deps, Keys()) && old(Keys()) <= Keys() <= bound
        invariant Links(desc.fields[..i]) * deps.Keys <= Keys()
        invariant Walk(deps, desc.fields[i..], Keys(), height) == Walk(deps, desc.fields, before, height)
      {
        var name := desc.fields[i].nestedTypeName;
        LinksOfPrefix(desc.fields, i);
        ghost var s := Keys();
        WalkStep(deps, desc.fields, i, s, height);
        if name != "" {
          LinkOfField(desc.fields, i);
          var key := NestedKey(name);
          if key in deps {
            var dep := deps[key];
            RegisteredLinks(deps, rank, key, bound);
            HasName(deps, dep.typeName);
            if dep.typeName !in types {
              CollectReferencedTypes(dep, deps, rank, rank[key], bound);
              DepthSuffices(deps, dep.fields, s, rank[key], height - 1);
              ClosedWithOneMore(deps, Keys(), key);
              Insert(deps, dep);
            }
          }
        }
      }
      WalkEnd(deps, Keys(), height);
      assert desc.fields[|desc.fields|..] == [] && desc.fields[..|desc.fields|] == desc.fields;
    }

    /**
     `collect_nested_deps`: a type is inserted before its references are followed. The names
     not collected yet make it terminate on every graph, cyclic ones included.
     */
    method CollectNestedDeps(desc: TypeDescription, deps: Descriptions, ghost bound: set<string>)
      requires KeysMatch(deps) && FullyNamed(desc) && Inside(deps)
      requires IsClosed(deps, bound) && Keys() <= bound && Links(desc.fields) * deps.Keys <= bound
      modifies this
      ensures Inside(deps)
      ensures old(Keys()) + Links(desc.fields) * deps.Keys <= Keys() <= bound
      ensures forall k <- Keys() - old(Keys()) :: Links(deps[k].fields) * deps.Keys <= Keys()
      decreases deps.Keys - Keys(), 0
    {
      ghost var before := Keys();
      for i := 0 to |desc.fields|
        invariant Inside(deps) && before <= Keys() <= bound
        invariant Links(desc.fields[..i]) * deps.Keys <= Keys()
        invariant forall k <- Keys() - before :: Links(deps[k].fields) * deps.Keys <= Keys()
      {
        var name := desc.fields[i].nestedTypeName;
        LinksOfPrefix(desc.fields, i);
        if name != "" {
          assert desc.fields[i] in desc.fields;
          assert NestedKey(name) in Links(desc.fields);
          ConversionsAgree(name);
          var key := ReplacedKey(name);
          HasName(deps, name);
          if name !in types && key in deps {
            var dep := deps[key];
            KeysAreUnique(name, dep.typeName);
            Insert(deps, dep);
            CollectNestedDeps(dep, deps, bound);
          }
        }
      }
      assert desc.fields[..|desc.fields|] == desc.fields;
    }
  }

  lemma WalkStep(deps: Descriptions, fields: seq<FieldDescription>, i: nat, s: set<string>, depth: nat)
    requires i < |fields|
    ensures var name, key, rest := fields[i].nestedTypeName, NestedKey(fields[i].nestedTypeName), fields[i + 1..];
      Walk(deps, fields[i..], s, depth) ==
        if name == "" || key !in deps || key in s then Walk(deps, rest, s, depth)
        else if depth == 0 then None
        else
          var below := Walk(deps, deps[key].fields, s, depth - 1);
          if below.None? then None else Walk(deps, rest, below.value + {key}, depth)
  {
    hide NestedKey;
    assert fields[i..][1..] == fields[i + 1..];
  }

  lemma WalkEnd(deps: Descriptions, s: set<string>, depth: nat)
    ensures Walk(deps, [], s, depth) == Some(s)
  {
  }

  lemma NoLinks(fields: seq<FieldDescription>)
    ensures Links(fields[..0]) == {}
  {
  }

  lemma LinkOfField(fields: seq<FieldDescription>, i: nat)
    requires i < |fields| && fields[i].nestedTypeName != ""
    ensures NestedKey(fields[i].nestedTypeName) in Links(fields)
  {
    assert fields[i] in fields;
  }

  lemma ClosedWithOneMore(deps: Descriptions, s: set<string>, k: string)
    requires IsClosed(deps, s) && k in deps && Links(deps[k].fields) * deps.Keys <= s
    ensures IsClosed(deps, s + {k})
  {
  }

  // What is known of a registered type inside a closed set.
  lemma RegisteredLinks(deps: Descriptions, rank: map<string, nat>, k: string, bound: set<string>)
    requires KeysMatch(deps) && IsRankedWithin(deps, rank, bound) && k in deps
    requires IsClosed(deps, bound) && k in bound
    ensures FullyNamed(deps[k]) && IsFullName(deps[k].typeName) && NestedKey(deps[k].typeName) == k
    ensures k in rank
    ensures forall l <- Links(deps[k].fields) | l in deps :: l in rank && rank[l] < rank[k]
    ensures Links(deps[k].fields) * deps.Keys <= bound
  {
  }

  lemma LinksOfPrefix(fields: seq<FieldDescription>, i: nat)
    requires i < |fields|
    ensures Links(fields[..i + 1])
         == Links(fields[..i]) + if fields[i].nestedTypeName == "" then {} else {NestedKey(fields[i].nestedTypeName)}
  {
    assert fields[..i + 1] == fields[..i] + [fields[i]];
  }
}
