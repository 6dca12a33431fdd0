/**
 The dependency resolver: its tables, the invariant every run keeps, and the
 independence of its results from the order of the messages.
 */
module Resolvers {
  import opened TypeNames
  import opened TypeDescriptions
  import opened TypeClosure
  import opened TypeHashing
  import opened Worklist

  type Hash<H> = TypeDescriptionMsg -> H

  datatype ResolvedMessage<H> = ResolvedMessage(parsed: ParsedMessage, typeHash: H)

  datatype Tables<H> = Tables(descriptions: Descriptions, resolved: map<string, ResolvedMessage<H>>)

  // ----- the tables -------------------------------------------------------------------------

  ghost function Enter<H>(hash: Hash<H>, t: Tables<H>, m: ParsedMessage): Tables<H> {
    Tables(t.descriptions[MessageKey(m) := Describe(m)],
           t.resolved[MessageKey(m) := ResolvedMessage(m, hash(HashInput(m, t.descriptions)))])
  }

  ghost function EnterAll<H>(hash: Hash<H>, t: Tables<H>, order: seq<ParsedMessage>): Tables<H>
    decreases order
  {
    if order == [] then t else EnterAll(hash, Enter(hash, t, order[0]), order[1..])
  }

  // Nothing external is registered, and all that is referenced is registered or external.
  predicate IsSettled(external: set<string>, deps: Descriptions) {
    forall k <- deps ::
      PackageOf(k) !in external && forall l <- Links(deps[k].fields) :: l in deps || PackageOf(l) in external
  }

  ghost predicate IsAcyclic(deps: Descriptions) {
    exists rank :: IsRanked(deps, rank)
  }

  // A hash is final when all that is registered by now would give the same hash.
  ghost predicate HashesAreFinal<H(!new)>(hash: Hash<H>, t: Tables<H>) {
    forall k <- t.resolved ::
      var r := t.resolved[k];
      && WellNamed(r.parsed) && MessageKey(r.parsed) == k
      && k in t.descriptions && t.descriptions[k] == Describe(r.parsed)
      && r.typeHash == hash(HashInput(r.parsed, t.descriptions))
  }

  ghost predicate IsConsistent<H(!new)>(external: set<string>, hash: Hash<H>, t: Tables<H>) {
    && KeysMatch(t.descriptions) && IsAcyclic(t.descriptions) && IsSettled(external, t.descriptions)
    && HashesAreFinal(hash, t)
  }

  predicate IsNew(external: set<string>, known: set<string>, m: ParsedMessage) {
    WellNamed(m) && m.package !in external && MessageKey(m) !in known
  }

  // ----- what a hash depends on -----------------------------------------------------------------

  ghost predicate Extends(deps: Descriptions, more: Descriptions) {
    forall k <- deps :: k in more && more[k] == deps[k]
  }

  // References outside the closure of a settled registry stay outside it.
  lemma ReachIsStable(external: set<string>, deps: Descriptions, more: Descriptions, roots: set<string>)
    requires IsSettled(external, deps) && Extends(deps, more)
    requires forall k <- more :: PackageOf(k) !in external
    requires forall l <- roots :: l in deps || PackageOf(l) in external
    ensures Reach(deps, roots) == Reach(more, roots)
  {
    hide IsReachable, Links, PackageOf;
    ReachIsClosed(deps, roots);
    ReachIsLeast(more, roots, Reach(deps, roots));
    ReachIsClosed(more, roots);
    ReachIsLeast(deps, roots, Reach(more, roots));
  }

  /**
   Once everything a message references is registered or external, its hash input no longer
   changes: the whole closure is final, not only the direct references.
   */
  lemma HashInputIsStable(external: set<string>, deps: Descriptions, more: Descriptions, m: ParsedMessage)
    requires WellNamed(m) && m.package !in external && AllDepsResolved(external, deps.Keys, m)
    requires KeysMatch(deps) && IsSettled(external, deps) && Extends(deps, more)
    requires forall k <- more :: PackageOf(k) !in external
    ensures HashInput(m, deps) == HashInput(m, more)
  {
    hide IsReachable, Links, PackageOf, MainDescription, AllDepsResolved, FullyNamed, WellNamed, NestedKey, DepKeys;
    ReadyExactly(external, deps.Keys, m);
    ReachIsStable(external, deps, more, DepKeys(m));
    SameList(deps, more, Reach(deps, DepKeys(m)));
  }

  lemma SameList(deps: Descriptions, more: Descriptions, keys: set<string>)
    requires KeysMatch(deps) && keys <= deps.Keys && forall k <- keys :: k in more && more[k] == deps[k]
    ensures InNameOrder(deps, keys) == InNameOrder(more, keys)
  {
    hide FullyNamed, NestedKey, Sorted;
    assert Names(deps, keys) == Names(more, keys);
    forall n | n in Names(deps, keys) ensures Lookup(deps, n) == Lookup(more, n) {
      var k :| k in keys && k in deps && deps[k].typeName == n;
    }
    var names := Sorted(Names(deps, keys));
    forall i | 0 <= i < |names| ensures Lookup(deps, names[i]) == Lookup(more, names[i]) {
      assert names[i] in names;
    }
  }

  // With no external packages nothing is missing from the closure.
  lemma NothingIsMissing(deps: Descriptions, m: ParsedMessage)
    requires WellNamed(m) && AllDepsResolved({}, deps.Keys, m) && IsSettled({}, deps)
    ensures var all := Reach(deps, DepKeys(m));
      DepKeys(m) <= all && forall k <- all :: Links(deps[k].fields) <= all
  {
    hide IsReachable, Links, PackageOf, AllDepsResolved, WellNamed, DepKeys;
    ReadyExactly({}, deps.Keys, m);
    ReachIsClosed(deps, DepKeys(m));
  }

  // ----- one message ------------------------------------------------------------------------------

  // A message whose key is in no external package, as the parser hands it over.
  predicate IsOwn(external: set<string>, m: ParsedMessage) {
    WellNamed(m) && m.package !in external
  }

  // The key and the references of a message that is ready.
  lemma AboutReadyMessage(external: set<string>, deps: Descriptions, m: ParsedMessage)
    requires IsOwn(external, m) && AllDepsResolved(external, deps.Keys, m)
    ensures PackageOf(MessageKey(m)) == m.package
    ensures FullyNamed(Describe(m)) && NestedKey(Describe(m).typeName) == MessageKey(m)
    ensures Links(Describe(m).fields) == DepKeys(m)
    ensures forall l <- DepKeys(m) :: l in deps || PackageOf(l) in external
  {
    hide Links, AllDepsResolved, DepKeys, FullyNamed, NestedKey, Describe, PackageOf;
    DescribedLinks(m);
    ReadyExactly(external, deps.Keys, m);
    PackageOfKey(m.package, m.name);
  }

  // Registering a ready message keeps the names matched and the references settled.
  lemma EnterKeepsNames(external: set<string>, deps: Descriptions, m: ParsedMessage)
    requires KeysMatch(deps) && IsSettled(external, deps)
    requires IsOwn(external, m) && AllDepsResolved(external, deps.Keys, m)
    ensures var more := deps[MessageKey(m) := Describe(m)]; KeysMatch(more) && IsSettled(external, more)
  {
    hide Links, PackageOf, AllDepsResolved, WellNamed, FullyNamed, NestedKey, Describe, MessageKey, DepKeys;
    AboutReadyMessage(external, deps, m);
  }

  /**
   When registering a ready message leaves the references acyclic: exactly when its key is not
   among the types it reaches already. A caller can check this before the insert; a new key
   always passes.
   */
  lemma AcyclicExactly(external: set<string>, deps: Descriptions, m: ParsedMessage)
    requires IsSettled(external, deps) && IsAcyclic(deps)
    requires IsOwn(external, m) && AllDepsResolved(external, deps.Keys, m)
    ensures IsAcyclic(deps[MessageKey(m) := Describe(m)]) <==> MessageKey(m) !in Reach(deps, DepKeys(m))
  {
    hide IsAcyclic, AllDepsResolved, WellNamed, Describe, MessageKey, DepKeys, IsSettled, IsReachable;
    if MessageKey(m) in Reach(deps, DepKeys(m)) {
      ReachableKeyMakesACycle(external, deps, m);
    } else {
      UnreachableKeyIsHarmless(external, deps, m);
    }
  }

  lemma UnreachableKeyIsHarmless(external: set<string>, deps: Descriptions, m: ParsedMessage)
    requires IsSettled(external, deps) && IsAcyclic(deps)
    requires IsOwn(external, m) && AllDepsResolved(external, deps.Keys, m)
    requires MessageKey(m) !in Reach(deps, DepKeys(m))
    ensures IsAcyclic(deps[MessageKey(m) := Describe(m)])
  {
    hide Links, PackageOf, AllDepsResolved, WellNamed, Describe;
    hide MessageKey, DepKeys, IsReachable, FullyNamed, NestedKey;
    AboutReadyMessage(external, deps, m);
    var rank :| IsRanked(deps, rank);
    var k, below, top := MessageKey(m), Reach(deps, DepKeys(m)), MaxRank(deps.Keys, rank) + 1;
    ReachIsClosed(deps, DepKeys(m));
    var more := deps[k := Describe(m)];
    var raised := map x | x in more :: if x == k then top else if x in below then rank[x] else rank[x] + top + 1;
    assert IsRanked(more, raised);
  }

  lemma ReachableKeyMakesACycle(external: set<string>, deps: Descriptions, m: ParsedMessage)
    requires IsOwn(external, m) && AllDepsResolved(external, deps.Keys, m)
    requires MessageKey(m) in Reach(deps, DepKeys(m))
    ensures !IsAcyclic(deps[MessageKey(m) := Describe(m)])
  {
    hide Links, PackageOf, AllDepsResolved, WellNamed, Describe, MessageKey, DepKeys, FullyNamed, NestedKey;
    AboutReadyMessage(external, deps, m);
    var k := MessageKey(m);
    var more := deps[k := Describe(m)];
    var path :| IsPath(deps, DepKeys(m), path) && path[|path| - 1] == k;
    forall rank ensures !IsRanked(more, rank) {
      if IsRanked(more, rank) {
        RankFallsBelow(deps, more, DepKeys(m), k, rank, path, |path| - 1);
      }
    }
  }

  // Down a path from what k refers to, the rank stays below that of k.
  lemma {:induction false} RankFallsBelow(
    deps: Descriptions, more: Descriptions, roots: set<string>, k: string, rank: map<string, nat>,
    path: seq<string>, i: nat)
    requires IsPath(deps, roots, path) && i < |path| && IsRanked(more, rank)
    requires k in more && more == deps[k := more[k]] && Links(more[k].fields) == roots
    ensures path[i] in rank && rank[path[i]] < rank[k]
  {
    hide Links;
    if i > 0 {
      RankFallsBelow(deps, more, roots, k, rank, path, i - 1);
      assert path[i] in Links(more[path[i - 1]].fields);
    }
  }

  lemma EnterKeepsTheRegistry(external: set<string>, deps: Descriptions, m: ParsedMessage)
    requires KeysMatch(deps) && IsSettled(external, deps) && IsAcyclic(deps)
    requires IsNew(external, deps.Keys, m) && AllDepsResolved(external, deps.Keys, m)
    ensures var more := deps[MessageKey(m) := Describe(m)];
      KeysMatch(more) && IsSettled(external, more) && IsAcyclic(more) && Extends(deps, more)
  {
    hide IsSettled, IsAcyclic, KeysMatch, AllDepsResolved, WellNamed, Describe, MessageKey, DepKeys, IsReachable;
    EnterKeepsNames(external, deps, m);
    AcyclicExactly(external, deps, m);
  }

  lemma EnterKeepsHashes<H(!new)>(external: set<string>, hash: Hash<H>, t: Tables<H>, m: ParsedMessage)
    requires IsConsistent(external, hash, t)
    requires IsNew(external, t.descriptions.Keys, m) && AllDepsResolved(external, t.descriptions.Keys, m)
    ensures HashesAreFinal(hash, Enter(hash, t, m))
  {
    hide Links, PackageOf, AllDepsResolved, WellNamed, FullyNamed;
    hide NestedKey, Describe, MessageKey, HashInput, KeysMatch;
    EnterKeepsTheRegistry(external, t.descriptions, m);
    var after := Enter(hash, t, m);
    forall k | k in after.resolved
      ensures HashInput(after.resolved[k].parsed, t.descriptions) ==
        HashInput(after.resolved[k].parsed, after.descriptions)
    {
      var parsed := after.resolved[k].parsed;
      if k != MessageKey(m) {
        ResolvedIsReady(external, hash, t, k);
      }
      assert IsNew(external, {}, parsed);
      HashInputIsStable(external, t.descriptions, after.descriptions, parsed);
    }
  }

  lemma ResolvedIsReady<H(!new)>(external: set<string>, hash: Hash<H>, t: Tables<H>, k: string)
    requires IsConsistent(external, hash, t) && k in t.resolved
    ensures var parsed := t.resolved[k].parsed;
      parsed.package !in external && AllDepsResolved(external, t.descriptions.Keys, parsed)
  {
    hide Links, AllDepsResolved, FullyNamed, NestedKey, Describe, HashInput, KeysMatch, PackageOf;
    var parsed := t.resolved[k].parsed;
    PackageOfKey(parsed.package, parsed.name);
    DescribedLinks(parsed);
    ReadyExactly(external, t.descriptions.Keys, parsed);
  }

  // What every step of a run keeps.
  lemma EnterKeepsConsistency<H(!new)>(external: set<string>, hash: Hash<H>, t: Tables<H>, m: ParsedMessage)
    requires IsConsistent(external, hash, t)
    requires IsNew(external, t.descriptions.Keys, m) && AllDepsResolved(external, t.descriptions.Keys, m)
    ensures IsConsistent(external, hash, Enter(hash, t, m))
  {
    hide IsSettled, IsAcyclic, KeysMatch, HashesAreFinal, AllDepsResolved, IsNew;
    EnterKeepsTheRegistry(external, t.descriptions, m);
    EnterKeepsHashes(external, hash, t, m);
  }

  // ----- a run ------------------------------------------------------------------------------------

  /**
   After a run the tables are consistent, hold what they held, and hold every message of the
   order with its description and a hash of its closure in the final tables.
   */
  lemma {:induction false} EnterAllIsFinal<H(!new)>(
    external: set<string>, hash: Hash<H>, t: Tables<H>, order: seq<ParsedMessage>)
    requires IsConsistent(external, hash, t)
    requires IsBatch(external, t.descriptions.Keys, order) && IsReadyOrder(external, t.descriptions.Keys, order)
    ensures var after := EnterAll(hash, t, order);
      && IsConsistent(external, hash, after)
      && after.descriptions.Keys == t.descriptions.Keys + KeysOf(order)
      && after.resolved.Keys == t.resolved.Keys + KeysOf(order)
      && Extends(t.descriptions, after.descriptions)
      && (forall k <- t.resolved :: k !in KeysOf(order) ==> after.resolved[k] == t.resolved[k])
      && forall m <- order :: after.resolved[MessageKey(m)].parsed == m
    decreases order
  {
    hide IsSettled, IsAcyclic, KeysMatch, HashesAreFinal, AllDepsResolved, WellNamed, HashInput, Describe, MessageKey;
    if order != [] {
      var m, rest := order[0], order[1..];
      assert m in order && order == [m] + rest;
      EnterKeepsConsistency(external, hash, t, m);
      var next := Enter(hash, t, m);
      BatchWithoutFirst(external, t.descriptions.Keys, order);
      assert next.descriptions.Keys == t.descriptions.Keys + {MessageKey(m)};
      EnterAllIsFinal(external, hash, next, rest);
      assert KeysOf(order) == {MessageKey(m)} + KeysOf(rest);
    }
  }

  lemma BatchWithoutFirst(external: set<string>, known: set<string>, messages: seq<ParsedMessage>)
    requires messages != [] && IsBatch(external, known, messages)
    ensures IsBatch(external, known + {MessageKey(messages[0])}, messages[1..])
    ensures IsNew(external, known, messages[0])
  {
    hide WellNamed, MessageKey;
    assert forall i | 0 <= i < |messages| - 1 :: messages[1..][i] == messages[i + 1];
  }

  /**
   A successful run registers the whole batch, and the hash of every message is the hash of
   its closure in the final tables, also when it was resolved long before the last one.
   */
  lemma RunHashesFinalClosures<H(!new)>(
    external: set<string>, hash: Hash<H>, t: Tables<H>, messages: seq<ParsedMessage>)
    requires IsConsistent(external, hash, t) && IsBatch(external, t.descriptions.Keys, messages)
    requires RunQueue(external, t.descriptions.Keys, messages, 0, 0).outcome.Done?
    ensures var after := EnterAll(hash, t, RunQueue(external, t.descriptions.Keys, messages, 0, 0).order);
      && IsConsistent(external, hash, after) && Extends(t.descriptions, after.descriptions)
      && after.descriptions.Keys == t.descriptions.Keys + KeysOf(messages)
      && after.resolved.Keys == t.resolved.Keys + KeysOf(messages)
      && (forall k <- t.resolved :: after.resolved[k].parsed == t.resolved[k].parsed)
      && forall m <- messages ::
        && after.descriptions[MessageKey(m)] == Describe(m)
        && after.resolved[MessageKey(m)] == ResolvedMessage(m, hash(HashInput(m, after.descriptions)))
  {
    hide IsSettled, IsAcyclic, KeysMatch, AllDepsResolved, WellNamed, HashInput;
    hide Describe, MessageKey, RunQueue, IsReadyOrder, EnterAll;
    var known := t.descriptions.Keys;
    var order := RunQueue(external, known, messages, 0, 0).order;
    RunKeepsEveryMessage(external, known, messages, 0, 0);
    RunResolvesReadyMessages(external, known, messages, 0, 0);
    assert multiset(order) == multiset(messages);
    SameMembers(order, messages);
    BatchIsUnordered(external, known, messages, order);
    EnterAllIsFinal(external, hash, t, order);
  }

  lemma SameMembers(a: seq<ParsedMessage>, b: seq<ParsedMessage>)
    requires multiset(a) == multiset(b)
    ensures (forall m :: m in a <==> m in b) && KeysOf(a) == KeysOf(b)
  {
    hide MessageKey;
    forall m ensures m in a <==> m in b {
      assert m in a <==> m in multiset(a);
      assert m in b <==> m in multiset(b);
    }
  }

  /**
   Order independence: two orders of the same messages that both succeed leave the same
   descriptions and the same hashes.
   */
  lemma OrderIndependence<H(!new)>(
    external: set<string>, hash: Hash<H>, t: Tables<H>, a: seq<ParsedMessage>, b: seq<ParsedMessage>)
    requires IsConsistent(external, hash, t) && IsBatch(external, t.descriptions.Keys, a)
    requires multiset(a) == multiset(b)
    requires RunQueue(external, t.descriptions.Keys, a, 0, 0).outcome.Done?
    requires RunQueue(external, t.descriptions.Keys, b, 0, 0).outcome.Done?
    ensures EnterAll(hash, t, RunQueue(external, t.descriptions.Keys, a, 0, 0).order)
         == EnterAll(hash, t, RunQueue(external, t.descriptions.Keys, b, 0, 0).order)
  {
    hide IsSettled, IsAcyclic, KeysMatch, AllDepsResolved, IsBatch, HashInput;
    hide Describe, MessageKey, RunQueue, IsReadyOrder, EnterAll;
    BatchIsUnordered(external, t.descriptions.Keys, a, b);
    RunHashesFinalClosures(external, hash, t, a);
    RunHashesFinalClosures(external, hash, t, b);
    SameMembers(a, b);
    var x := EnterAll(hash, t, RunQueue(external, t.descriptions.Keys, a, 0, 0).order);
    var y := EnterAll(hash, t, RunQueue(external, t.descriptions.Keys, b, 0, 0).order);
    forall k | k in x.descriptions ensures x.descriptions[k] == y.descriptions[k] {
      if k !in t.descriptions {
        var m :| m in a && MessageKey(m) == k;
      }
    }
    assert x.descriptions == y.descriptions;
    forall k | k in x.resolved ensures x.resolved[k] == y.resolved[k] {
      if k !in t.resolved {
        var m :| m in a && MessageKey(m) == k;
      }
    }
  }

  // Within 101 messages the order does not decide success either.
  lemma SuccessIsOrderIndependent(
    external: set<string>, known: set<string>, a: seq<ParsedMessage>, b: seq<ParsedMessage>)
    requires multiset(a) == multiset(b) && |a| <= 101
    ensures RunQueue(external, known, a, 0, 0).outcome.Done? <==> RunQueue(external, known, b, 0, 0).outcome.Done?
  {
    hide AllDepsResolved, IsSupported, RunQueue, IsReadyOrder;
    assert |a| == |multiset(a)| == |multiset(b)| == |b|;
    SameMembers(a, b);
    ResolverIsComplete(external, known, a);
    ResolverIsComplete(external, known, b);
  }

  // No resolved message is among the types it references, in any state a run reaches.
  lemma NoMessageReferencesItself<H(!new)>(external: set<string>, hash: Hash<H>, t: Tables<H>, k: string)
    requires IsConsistent(external, hash, t) && k in t.resolved
    ensures var m := t.resolved[k].parsed;
      && k !in Reach(t.descriptions, DepKeys(m))
      && forall d <- HashInput(m, t.descriptions).referenced :: d.typeName != MainDescription(m).typeName
  {
    hide IsReachable, Links, DepKeys, Describe, MainDescription, FullyNamed, NestedKey, PackageOf;
    var deps, m := t.descriptions, t.resolved[k].parsed;
    DescribedLinks(m);
    var rank :| IsRanked(deps, rank);
    var below := set x <- deps.Keys | rank[x] < rank[k];
    ReachIsLeast(deps, DepKeys(m), below);
    ReferencedIsTheExactClosure(m, deps);
  }

  // ----- runs that hash no cycle ---------------------------------------------------------------

  // A hash is computed for each message of the order, and for the unsupported one that follows.
  ghost predicate HashesTerminate(deps: Descriptions, order: seq<ParsedMessage>, next: seq<ParsedMessage>)
    decreases order
  {
    if order == [] then next != [] ==> IsAcyclicBelow(deps, DepKeys(next[0]))
    else
      && IsAcyclicBelow(deps, DepKeys(order[0]))
      && HashesTerminate(deps[MessageKey(order[0]) := Describe(order[0])], order[1..], next)
  }

  ghost predicate RunTerminates(deps: Descriptions, e: Ended) {
    HashesTerminate(deps, e.order, if e.outcome.Unsupported? then e.left else [])
  }

  // Each hash of the run walks a registry in which its message reaches no cycle.
  ghost predicate HashingTerminates(external: set<string>, deps: Descriptions, messages: seq<ParsedMessage>) {
    RunTerminates(deps, RunQueue(external, deps.Keys, messages, 0, 0))
  }

  // The whole registry is acyclic before, between and after the messages of an order.
  ghost predicate StaysAcyclic(deps: Descriptions, order: seq<ParsedMessage>)
    decreases order
  {
    && IsAcyclic(deps)
    && (order == [] || StaysAcyclic(deps[MessageKey(order[0]) := Describe(order[0])], order[1..]))
  }

  lemma AcyclicBelowEverything(deps: Descriptions, roots: set<string>)
    requires IsAcyclic(deps)
    ensures IsAcyclicBelow(deps, roots)
  {
    hide Links, IsReachable;
    var rank :| IsRanked(deps, rank);
    assert IsRankedWithin(deps, rank, Reach(deps, roots));
  }

  lemma {:induction false} AcyclicRunsTerminate(deps: Descriptions, order: seq<ParsedMessage>, next: seq<ParsedMessage>)
    requires StaysAcyclic(deps, order)
    ensures HashesTerminate(deps, order, next)
    decreases order
  {
    hide IsAcyclic, IsAcyclicBelow, Describe, MessageKey, DepKeys;
    if order != [] {
      AcyclicBelowEverything(deps, DepKeys(order[0]));
      AcyclicRunsTerminate(deps[MessageKey(order[0]) := Describe(order[0])], order[1..], next);
    } else if next != [] {
      AcyclicBelowEverything(deps, DepKeys(next[0]));
    }
  }

  // No message of the order has a key among the types it reaches at its turn.
  ghost predicate ClosesNoCycle(deps: Descriptions, order: seq<ParsedMessage>)
    decreases order
  {
    order == [] ||
    (MessageKey(order[0]) !in Reach(deps, DepKeys(order[0]))
     && ClosesNoCycle(deps[MessageKey(order[0]) := Describe(order[0])], order[1..]))
  }

  // The whole order leaves the registry acyclic exactly when no message of it closes a cycle.
  lemma {:induction false} OrderIsAcyclicExactly(external: set<string>, deps: Descriptions, order: seq<ParsedMessage>)
    requires KeysMatch(deps) && IsSettled(external, deps) && IsAcyclic(deps)
    requires (forall m <- order :: IsOwn(external, m)) && IsReadyOrder(external, deps.Keys, order)
    ensures StaysAcyclic(deps, order) <==> ClosesNoCycle(deps, order)
    decreases order
  {
    hide IsSettled, IsAcyclic, KeysMatch, AllDepsResolved, IsOwn, Describe, MessageKey, DepKeys, IsReachable;
    if order != [] {
      var m, rest := order[0], order[1..];
      var more := deps[MessageKey(m) := Describe(m)];
      assert m in order && forall x <- rest :: x in order;
      AcyclicExactly(external, deps, m);
      EnterKeepsNames(external, deps, m);
      assert more.Keys == deps.Keys + {MessageKey(m)};
      if IsAcyclic(more) {
        OrderIsAcyclicExactly(external, more, rest);
      } else {
        CyclicFromTheStart(more, rest);
      }
    }
  }

  lemma CyclicFromTheStart(deps: Descriptions, order: seq<ParsedMessage>)
    requires !IsAcyclic(deps)
    ensures !StaysAcyclic(deps, order)
  {
  }

  // New keys close no cycle.
  lemma {:induction false} NewKeysCloseNoCycle(external: set<string>, deps: Descriptions, order: seq<ParsedMessage>)
    requires IsBatch(external, deps.Keys, order)
    ensures ClosesNoCycle(deps, order)
    decreases order
  {
    hide WellNamed, Describe, MessageKey, DepKeys, IsReachable;
    if order != [] {
      var more := deps[MessageKey(order[0]) := Describe(order[0])];
      BatchWithoutFirst(external, deps.Keys, order);
      assert more.Keys == deps.Keys + {MessageKey(order[0])};
      NewKeysCloseNoCycle(external, more, order[1..]);
    }
  }

  // A batch of new messages always meets the requirement.
  lemma BatchHashingTerminates(external: set<string>, deps: Descriptions, messages: seq<ParsedMessage>)
    requires KeysMatch(deps) && IsSettled(external, deps) && IsAcyclic(deps) && IsBatch(external, deps.Keys, messages)
    ensures HashingTerminates(external, deps, messages)
  {
    hide IsSettled, IsAcyclic, KeysMatch, AllDepsResolved, RunQueue;
    hide IsReadyOrder, ClosesNoCycle, StaysAcyclic, HashesTerminate;
    var e := RunQueue(external, deps.Keys, messages, 0, 0);
    RunKeepsEveryMessage(external, deps.Keys, messages, 0, 0);
    RunResolvesReadyMessages(external, deps.Keys, messages, 0, 0);
    BatchIsUnordered(external, deps.Keys, messages, e.order);
    NewKeysCloseNoCycle(external, deps, e.order);
    OrderIsAcyclicExactly(external, deps, e.order);
    AcyclicRunsTerminate(deps, e.order, if e.outcome.Unsupported? then e.left else []);
  }

  // A run over a batch of new messages keeps the tables consistent, however it ends.
  lemma RunKeepsConsistency<H(!new)>(external: set<string>, hash: Hash<H>, t: Tables<H>, messages: seq<ParsedMessage>)
    requires IsConsistent(external, hash, t) && IsBatch(external, t.descriptions.Keys, messages)
    ensures
      IsConsistent(external, hash, EnterAll(hash, t, RunQueue(external, t.descriptions.Keys, messages, 0, 0).order))
  {
    hide IsConsistent, RunQueue, IsReadyOrder, EnterAll, IsBatch;
    var e := RunQueue(external, t.descriptions.Keys, messages, 0, 0);
    RunKeepsEveryMessage(external, t.descriptions.Keys, messages, 0, 0);
    RunResolvesReadyMessages(external, t.descriptions.Keys, messages, 0, 0);
    BatchIsUnordered(external, t.descriptions.Keys, messages, e.order);
    EnterAllIsFinal(external, hash, t, e.order);
  }

  // ----- hashes under a known key -----------------------------------------------------------------

  // Up to the first occurrence of k, a path does not see what k is registered with.
  lemma {:induction false} PathBeforeKey(
    deps: Descriptions, more: Descriptions, roots: set<string>, k: string, path: seq<string>, i: nat)
    requires k in deps && k in more && more == deps[k := more[k]]
    requires IsPath(deps, roots, path) && i < |path| && path[i] == k
    ensures IsReachable(more, roots, k)
    decreases i
  {
    hide Links;
    if j :| 0 <= j < i && path[j] == k {
      PathBeforeKey(deps, more, roots, k, path, j);
    } else {
      assert IsPath(more, roots, path[..i + 1]);
    }
  }

  // Registering k anew does not change whether it is reached.
  lemma ReachedEitherWay(deps: Descriptions, more: Descriptions, roots: set<string>, k: string)
    requires k in deps && k in more && more == deps[k := more[k]] && k in Reach(deps, roots)
    ensures k in Reach(more, roots)
  {
    hide Links;
    var path :| IsPath(deps, roots, path) && path[|path| - 1] == k;
    PathBeforeKey(deps, more, roots, k, path, |path| - 1);
  }

  // A closure without k does not change at all.
  lemma UnreachedKeyChangesNothing(deps: Descriptions, more: Descriptions, roots: set<string>, k: string)
    requires k in deps && k in more && more == deps[k := more[k]] && k !in Reach(deps, roots)
    ensures Reach(more, roots) == Reach(deps, roots)
  {
    hide IsReachable, Links;
    ReachIsClosed(deps, roots);
    ReachIsLeast(more, roots, Reach(deps, roots));
    ReachIsClosed(more, roots);
    ReachIsLeast(deps, roots, Reach(more, roots));
  }

  /**
   When registering a ready message under a known key leaves the hash input of a message as it
   was: exactly when the description is the one registered already, or the message does not
   reach the key.
   */
  lemma HashInputUnchangedExactly(external: set<string>, deps: Descriptions, m: ParsedMessage, other: ParsedMessage)
    requires KeysMatch(deps) && IsSettled(external, deps) && MessageKey(m) in deps
    requires IsOwn(external, m) && AllDepsResolved(external, deps.Keys, m)
    ensures HashInput(other, deps[MessageKey(m) := Describe(m)]) == HashInput(other, deps) <==>
      Describe(m) == deps[MessageKey(m)] || MessageKey(m) !in Reach(deps, DepKeys(other))
  {
    hide IsReachable, AllDepsResolved, IsSettled, KeysMatch, Describe;
    hide MessageKey, DepKeys, MainDescription, InNameOrder;
    var k, roots := MessageKey(m), DepKeys(other);
    var more := deps[k := Describe(m)];
    EnterKeepsNames(external, deps, m);
    if Describe(m) == deps[k] {
      assert more == deps;
    } else if k !in Reach(deps, roots) {
      UnreachedKeyChangesNothing(deps, more, roots, k);
      SameList(deps, more, Reach(deps, roots));
    } else {
      ReachedEitherWay(deps, more, roots, k);
      ReferencedIsTheExactClosure(other, deps);
      ReferencedIsTheExactClosure(other, more);
      AboutReadyMessage(external, deps, m);
      OnlyUnderItsKey(deps, more[k], k);
      assert more[k] in HashInput(other, more).referenced;
      assert more[k] !in HashInput(other, deps).referenced;
    }
  }

  // A description whose name belongs to k is registered under no other key.
  lemma OnlyUnderItsKey(deps: Descriptions, d: TypeDescription, k: string)
    requires KeysMatch(deps) && NestedKey(d.typeName) == k && k in deps && deps[k] != d
    ensures forall l <- deps :: deps[l] != d
  {
    hide NestedKey;
  }

  // ----- a repeated key ---------------------------------------------------------------------------

  function Plain(name: string, base: string): ParsedMessage {
    ParsedMessage("p", name, if base == "" then [] else [Field("f", FieldType(base, None, Single, None))])
  }

  const REPEATED: seq<ParsedMessage> := [Plain("A", ""), Plain("B", "A"), Plain("A", "B")]

  /**
   Registering a key twice can tie two types into a cycle although each message was ready in
   its turn: the last message of this batch reaches its own key.
   */
  lemma RepeatedKeyMakesACycle<H>(hash: Hash<H>)
    ensures var e := RunQueue({}, {}, REPEATED, 0, 0);
      e.outcome.Done? && !IsAcyclic(EnterAll(hash, Tables(map[], map[]), e.order).descriptions)
  {
    hide Links, DepKeys, Describe, HashInput, IsReadyOrder, RunQueue;
    RepeatedIsReady();
    ReadyOrderIsOnePass({}, {}, REPEATED, 0, 0);
    var a, b := Plain("A", "B"), Plain("B", "A");
    var t: Tables<H> := Tables(map[], map[]);
    calc {
      EnterAll(hash, t, REPEATED);
      { assert REPEATED[1..] == [b, a]; }
      EnterAll(hash, Enter(hash, t, REPEATED[0]), [b, a]);
      { assert [b, a][1..] == [a]; }
      EnterAll(hash, Enter(hash, Enter(hash, t, REPEATED[0]), b), [a]);
      { assert [a][1..] == []; }
      Enter(hash, Enter(hash, Enter(hash, t, REPEATED[0]), b), a);
    }
    PlainLinks("A", "B");
    PlainLinks("B", "A");
    NamesOfPlain("A", "");
    var ka, kb := Key("p", "A"), Key("p", "B");
    assert |ka| == |kb| == 3 && ka[2] != kb[2];
    var after := EnterAll(hash, t, REPEATED).descriptions;
    assert after == map[ka := Describe(a), kb := Describe(b)];
    forall rank ensures !IsRanked(after, rank) {
      assert kb in Links(after[ka].fields) && ka in Links(after[kb].fields);
    }
  }

  lemma PlainLinks(name: string, base: string)
    requires SlashFree(name) && SlashFree(base) && base != "" && !IsPrimitive(base)
    ensures Links(Describe(Plain(name, base)).fields) == {Key("p", base)}
  {
    DescribedLinks(Plain(name, base));
  }

  lemma PlainIsReady(known: set<string>, name: string, base: string)
    requires base == "" || (Key("p", base) in known && !IsPrimitive(base))
    ensures AllDepsResolved({}, known, Plain(name, base)) && IsSupported(Plain(name, base))
  {
  }

  lemma RepeatedIsReady()
    ensures IsReadyOrder({}, {}, REPEATED) && AllSupported(REPEATED)
  {
    hide AllDepsResolved, IsSupported, Plain;
    var a, b, c := Plain("A", ""), Plain("B", "A"), Plain("A", "B");
    var one, two := {} + {MessageKey(a)}, {} + {MessageKey(a)} + {MessageKey(b)};
    NamesOfPlain("A", "");
    NamesOfPlain("B", "A");
    PlainIsReady({}, "A", "");
    PlainIsReady(one, "B", "A");
    PlainIsReady(two, "A", "B");
    assert [c][1..] == [];
    ReadyFirst({}, two, [c]);
    assert [b, c][1..] == [c];
    ReadyFirst({}, one, [b, c]);
    assert REPEATED[1..] == [b, c];
    ReadyFirst({}, {}, REPEATED);
  }

  lemma NamesOfPlain(name: string, base: string)
    ensures MessageKey(Plain(name, base)) == Key("p", name)
  {
  }

  const RENEWED: seq<ParsedMessage> := [Plain("A", ""), Plain("B", "A"), Plain("A", "int32")]

  lemma RenewedIsReady()
    ensures IsReadyOrder({}, {}, RENEWED) && AllSupported(RENEWED)
  {
    hide AllDepsResolved, IsSupported, Plain;
    var a, b, c := Plain("A", ""), Plain("B", "A"), Plain("A", "int32");
    var one, two := {} + {MessageKey(a)}, {} + {MessageKey(a)} + {MessageKey(b)};
    NamesOfPlain("A", "");
    NamesOfPlain("B", "A");
    PlainIsReady({}, "A", "");
    PlainIsReady(one, "B", "A");
    NumberIsReady(two);
    assert [c][1..] == [];
    ReadyFirst({}, two, [c]);
    assert [b, c][1..] == [c];
    ReadyFirst({}, one, [b, c]);
    assert RENEWED[1..] == [b, c];
    ReadyFirst({}, {}, RENEWED);
  }

  lemma NumberIsReady(known: set<string>)
    ensures AllDepsResolved({}, known, Plain("A", "int32")) && IsSupported(Plain("A", "int32"))
    ensures WellNamed(Plain("A", "int32")) && Describe(Plain("A", "int32")) != Describe(Plain("A", ""))
  {
    assert Describe(Plain("A", "int32")).fields[0].typeId == 6 && Describe(Plain("A", "")).fields[0].typeId == 3;
  }

  lemma PlainIsOwn(name: string, base: string)
    requires SlashFree(name) && SlashFree(base)
    ensures IsOwn({}, Plain(name, base))
  {
  }

  /**
   Registering a key anew can leave a hash behind that is not the hash of the final closure:
   here the second message was hashed with the first description of the type it references.
   */
  lemma RenewedKeyStalesAHash<H>(hash: Hash<H>) returns (input: TypeDescriptionMsg)
    ensures var e := RunQueue({}, {}, RENEWED, 0, 0);
      var after := EnterAll(hash, Tables(map[], map[]), e.order);
      && e.outcome.Done? && MessageKey(RENEWED[1]) in after.resolved
      && after.resolved[MessageKey(RENEWED[1])] == ResolvedMessage(RENEWED[1], hash(input))
      && input != HashInput(RENEWED[1], after.descriptions)
  {
    hide Links, DepKeys, Describe, HashInput, IsReadyOrder, RunQueue, AllDepsResolved, WellNamed, KeysMatch, IsSettled;
    hide Plain, IsOwn;
    RenewedIsReady();
    ReadyOrderIsOnePass({}, {}, RENEWED, 0, 0);
    var a, b, c := Plain("A", ""), Plain("B", "A"), Plain("A", "int32");
    var t0: Tables<H> := Tables(map[], map[]);
    var t1 := Enter(hash, t0, a);
    var t2 := Enter(hash, t1, b);
    assert RENEWED[1..] == [b, c] && [b, c][1..] == [c] && [c][1..] == [];
    assert EnterAll(hash, t0, RENEWED) == EnterAll(hash, t1, [b, c]) == EnterAll(hash, t2, [c]) == Enter(hash, t2, c);
    NamesOfPlain("A", "");
    NamesOfPlain("B", "A");
    NamesOfPlain("A", "int32");
    var ka, kb := Key("p", "A"), Key("p", "B");
    assert |ka| == |kb| == 3 && ka[2] != kb[2];
    input := HashInput(b, t1.descriptions);
    StaleInput(t1.descriptions, t2.descriptions);
  }

  lemma StaleInput(first: Descriptions, second: Descriptions)
    requires var a, b := Plain("A", ""), Plain("B", "A");
      && first == map[MessageKey(a) := Describe(a)]
      && second == first[MessageKey(b) := Describe(b)]
    ensures var b, c := Plain("B", "A"), Plain("A", "int32");
      HashInput(b, first) != HashInput(b, second[MessageKey(c) := Describe(c)])
  {
    hide Links, Describe, HashInput, AllDepsResolved, WellNamed, KeysMatch, IsSettled, Plain, IsOwn, IsReachable;
    var a, b, c := Plain("A", ""), Plain("B", "A"), Plain("A", "int32");
    NamesOfPlain("A", "");
    NamesOfPlain("B", "A");
    NamesOfPlain("A", "int32");
    var ka, kb := Key("p", "A"), Key("p", "B");
    assert |ka| == |kb| == 3 && ka[2] != kb[2];
    NothingRegistered();
    PlainIsOwn("A", "");
    PlainIsOwn("B", "A");
    PlainIsOwn("A", "int32");
    PlainIsReady({}, "A", "");
    PlainIsReady(first.Keys, "B", "A");
    NumberIsReady(second.Keys);
    var none: Descriptions := map[];
    assert none.Keys == {} && none[MessageKey(a) := Describe(a)] == first;
    EnterKeepsNames({}, none, a);
    EnterKeepsNames({}, first, b);
    OwnParts(b);
    HashInputIsStable({}, first, second, b);
    ReadyIsMonotonic({}, first.Keys, second.Keys, b);
    HashInputUnchangedExactly({}, second, c, b);
    PlainDepKeys();
    ReachIsClosed(second, DepKeys(b));
    assert ka in DepKeys(b) * second.Keys;
  }

  lemma NothingRegistered()
    ensures KeysMatch(map[]) && IsSettled({}, map[])
  {
  }

  lemma OwnParts(m: ParsedMessage)
    requires IsOwn({}, m)
    ensures WellNamed(m) && m.package !in {}
  {
  }

  lemma PlainDepKeys()
    ensures Key("p", "A") in DepKeys(Plain("B", "A"))
  {
    var m := Plain("B", "A");
    assert m.fields[0] in m.fields;
  }

  // ----- the resolver -----------------------------------------------------------------------------

  class Resolver<H(!new)> {
    var typeDescriptions: Descriptions
    var resolvedMessages: map<string, ResolvedMessage<H>>
    const externalPackages: set<string>
    const hash: Hash<H>

    constructor (externalPackages: set<string>, hash: Hash<H>)
      ensures this.externalPackages == externalPackages && this.hash == hash
      ensures Valid() && State() == Tables(map[], map[]) && IsConsistent(externalPackages, hash, State())
    {
      typeDescriptions, resolvedMessages := map[], map[];
      this.externalPackages, this.hash := externalPackages, hash;
      new;
      assert IsRanked(map[], map[]);
    }

    ghost function State(): Tables<H>
      reads this
    {
      Tables(typeDescriptions, resolvedMessages)
    }

    // The names match and everything referenced is registered or external.
    ghost predicate Valid()
      reads this
    {
      KeysMatch(typeDescriptions) && IsSettled(externalPackages, typeDescriptions)
    }

    method ResolveMessage(m: ParsedMessage) returns (r: Option<ResolvedMessage<H>>)
      requires Valid() && IsAcyclicBelow(typeDescriptions, DepKeys(m)) && WellNamed(m)
      ensures r == if IsSupported(m) then Some(ResolvedMessage(m, hash(HashInput(m, typeDescriptions)))) else None
    {
      hide HashInput, HashesAreFinal, IsSettled, IsRanked, KeysMatch, WellNamed, IsSupported;
      ghost var rank :| IsRankedWithin(typeDescriptions, rank, Reach(typeDescriptions, DepKeys(m)));
      var input := BuildTypeDescriptionMsg(m, typeDescriptions, rank);
      r := if input.None? then None else Some(ResolvedMessage(m, hash(input.value)));
    }

    /**
     Ends as the specification of the queue says and enters the resolved messages in their
     order, also when it fails. A key may be registered again; what is asked for is that no
     message reaches a cycle when it is hashed. With new keys that holds by itself, and then
     the run keeps the tables consistent on every path.
     */
    method ResolveMessages(messages: seq<ParsedMessage>)
      returns (outcome: Outcome, left: seq<ParsedMessage>, iterations: nat)
      requires Valid() && forall m <- messages :: IsOwn(externalPackages, m)
      requires HashingTerminates(externalPackages, typeDescriptions, messages)
      modifies this
      ensures Valid()
      ensures var e := RunQueue(externalPackages, old(typeDescriptions.Keys), messages, 0, 0);
        && outcome == e.outcome && left == e.left && iterations == e.pops
        && State() == EnterAll(hash, old(State()), e.order)
      ensures old(IsConsistent(externalPackages, hash, State()))
        && IsBatch(externalPackages, old(typeDescriptions.Keys), messages)
        ==> IsConsistent(externalPackages, hash, State())
    {
      hide AllDepsResolved, IsSupported, IsConsistent, IsOwn, IsBatch, IsAcyclicBelow;
      hide DepKeys, KeysMatch, IsSettled, HashInput, Describe, MessageKey;
      ghost var e := RunQueue(externalPackages, typeDescriptions.Keys, messages, 0, 0);
      ghost var final := EnterAll(hash, State(), e.order);
      if IsConsistent(externalPackages, hash, State()) && IsBatch(externalPackages, typeDescriptions.Keys, messages) {
        RunKeepsConsistency(externalPackages, hash, State(), messages);
      }
      var queue := messages;
      iterations := 0;
      var lastQueueSize, stagnant := |queue|, 0;
      while queue != []
        invariant Valid() && forall m <- queue :: IsOwn(externalPackages, m)
        invariant lastQueueSize == |queue| && stagnant <= MAX_STAGNANT && iterations <= MAX_ITERATIONS
        invariant SameEnd(e, RunQueue(externalPackages, typeDescriptions.Keys, queue, iterations, stagnant))
        invariant EnterAll(hash, State(),
          RunQueue(externalPackages, typeDescriptions.Keys, queue, iterations, stagnant).order) == final
        invariant RunTerminates(
          typeDescriptions, RunQueue(externalPackages, typeDescriptions.Keys, queue, iterations, stagnant))
        decreases MAX_ITERATIONS - iterations
      {
        var m := queue[0];
        ghost var popped := queue;
        ghost var known := typeDescriptions.Keys;
        queue := queue[1..];
        assert m in popped && forall x <- queue :: x in popped;
        if iterations >= MAX_ITERATIONS {
          return IterationLimit, [m] + queue, iterations;
        }
        iterations := iterations + 1;
        if AllDepsResolved(externalPackages, typeDescriptions.Keys, m) {
          NamesOfOwn(externalPackages, m);
          var resolved := ResolveMessage(m);
          if resolved.None? {
            return Unsupported, [m] + queue, iterations;
          }
          EnterKeepsNames(externalPackages, typeDescriptions, m);
          typeDescriptions := typeDescriptions[MessageKey(m) := Describe(resolved.value.parsed)];
          resolvedMessages := resolvedMessages[MessageKey(m) := resolved.value];
          stagnant := 0;
          assert typeDescriptions.Keys == known + {MessageKey(m)};
        } else {
          queue := queue + [m];
        }
        if |queue| == lastQueueSize {
          stagnant := stagnant + 1;
          if stagnant > MAX_STAGNANT {
            return Stalled, queue, iterations;
          }
        } else {
          lastQueueSize := |queue|;
          stagnant := 0;
        }
      }
      outcome, left := Done, [];
    }
  }

  lemma NamesOfOwn(external: set<string>, m: ParsedMessage)
    requires IsOwn(external, m)
    ensures WellNamed(m)
  {
  }

  predicate SameEnd(a: Ended, b: Ended) {
    a.outcome == b.outcome && a.left == b.left && a.pops == b.pops
  }
}
