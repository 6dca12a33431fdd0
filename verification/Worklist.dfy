/**
 The retry queue of the dependency resolver: which messages it resolves, in which
 order, and which of its two guards stops it.
 */
module Worklist {
  import opened TypeNames
  import opened TypeDescriptions

  // ----- readiness --------------------------------------------------------------------------

  predicate IsTypeResolvedInContext(
    external: set<string>, known: set<string>, package: Option<string>, base: string, source: string)
  {
    if package.Some? then package.value in external || Key(package.value, base) in known
    else Key(source, base) in known
  }

  predicate AllDepsResolved(external: set<string>, known: set<string>, m: ParsedMessage) {
    forall f <- m.fields ::
      IsPrimitive(f.fieldType.baseType)
      || IsTypeResolvedInContext(external, known, f.fieldType.package, f.fieldType.baseType, m.package)
  }

  // A message is ready when every type it references is registered or in an external package.
  lemma ReadyExactly(external: set<string>, known: set<string>, m: ParsedMessage)
    requires WellNamed(m) && m.package !in external
    ensures AllDepsResolved(external, known, m) <==>
      forall k <- DepKeys(m) :: k in known || PackageOf(k) in external
  {
    hide IsPrimitive;
    forall f | f in m.fields
      ensures IsTypeResolvedInContext(external, known, f.fieldType.package, f.fieldType.baseType, m.package)
         <==> (DepKey(f, m.package) in known || PackageOf(DepKey(f, m.package)) in external)
    {
      PackageOfKey(PackageFor(f.fieldType, m.package), f.fieldType.baseType);
    }
    if AllDepsResolved(external, known, m) {
      forall k | k in DepKeys(m) ensures k in known || PackageOf(k) in external {
      }
    } else {
      var f :| f in m.fields && !IsPrimitive(f.fieldType.baseType)
        && !IsTypeResolvedInContext(external, known, f.fieldType.package, f.fieldType.baseType, m.package);
      assert DepKey(f, m.package) in DepKeys(m);
    }
  }

  lemma ReadyIsMonotonic(external: set<string>, known: set<string>, more: set<string>, m: ParsedMessage)
    requires known <= more && AllDepsResolved(external, known, m)
    ensures AllDepsResolved(external, more, m)
  {
  }

  // ----- the loop -----------------------------------------------------------------------------

  const MAX_ITERATIONS: nat := 10000
  const MAX_STAGNANT: nat := 100

  datatype Outcome = Done | IterationLimit | Stalled | Unsupported

  // How a run ends: what was resolved, in order, what was not, and the number of pops.
  datatype Ended = Ended(outcome: Outcome, order: seq<ParsedMessage>, left: seq<ParsedMessage>, pops: nat)

  // The rest of a run of `resolve_messages`. A message that is ready makes the queue shorter
  // and one that is not leaves its length unchanged, so the recorded size need not be kept.
  function RunQueue(
    external: set<string>, known: set<string>, queue: seq<ParsedMessage>, iterations: nat, stagnant: nat): Ended
    decreases MAX_ITERATIONS - iterations
  {
    if queue == [] then Ended(Done, [], [], iterations)
    else if iterations >= MAX_ITERATIONS then Ended(IterationLimit, [], queue, iterations)
    else
      var m, rest := queue[0], queue[1..];
      if AllDepsResolved(external, known, m) then
        if !IsSupported(m) then Ended(Unsupported, [], queue, iterations + 1)
        else
          var e := RunQueue(external, known + {MessageKey(m)}, rest, iterations + 1, 0);
          e.(order := [m] + e.order)
      else if stagnant >= MAX_STAGNANT then Ended(Stalled, [], rest + [m], iterations + 1)
      else RunQueue(external, known, rest + [m], iterations + 1, stagnant + 1)
  }

  // ----- ready orders -------------------------------------------------------------------------

  function KeysOf(messages: seq<ParsedMessage>): set<string> {
    set m <- messages :: MessageKey(m)
  }

  predicate IsReadyOrder(external: set<string>, known: set<string>, order: seq<ParsedMessage>)
    decreases order
  {
    order == []
    || (AllDepsResolved(external, known, order[0])
        && IsReadyOrder(external, known + {MessageKey(order[0])}, order[1..]))
  }

  // Some order of the messages has every message after everything it references.
  ghost predicate IsResolvable(external: set<string>, known: set<string>, messages: seq<ParsedMessage>) {
    exists order :: multiset(order) == multiset(messages) && IsReadyOrder(external, known, order)
  }

  predicate AllSupported(messages: seq<ParsedMessage>) {
    forall m <- messages :: IsSupported(m)
  }

  // The last `count` messages, or all when there are fewer, cannot be resolved now.
  predicate TailIsStuck(external: set<string>, known: set<string>, queue: seq<ParsedMessage>, count: nat) {
    forall i | 0 <= i < |queue| && |queue| - count <= i :: !AllDepsResolved(external, known, queue[i])
  }

  // Every message of the queue is resolved or left, as often as it was queued.
  predicate IsSplit(order: seq<ParsedMessage>, left: seq<ParsedMessage>, queue: seq<ParsedMessage>) {
    multiset(order) + multiset(left) == multiset(queue)
  }

  lemma Rotated(queue: seq<ParsedMessage>)
    requires queue != []
    ensures multiset(queue[1..] + [queue[0]]) == multiset(queue)
  {
    assert queue == [queue[0]] + queue[1..];
  }

  lemma RotatedSplit(order: seq<ParsedMessage>, left: seq<ParsedMessage>, queue: seq<ParsedMessage>)
    requires queue != [] && IsSplit(order, left, queue[1..] + [queue[0]])
    ensures IsSplit(order, left, queue)
  {
    Rotated(queue);
  }

  lemma PutInFront(order: seq<ParsedMessage>, left: seq<ParsedMessage>, queue: seq<ParsedMessage>)
    requires queue != [] && IsSplit(order, left, queue[1..])
    ensures IsSplit([queue[0]] + order, left, queue)
  {
    assert queue == [queue[0]] + queue[1..];
  }

  lemma NothingResolved(queue: seq<ParsedMessage>)
    ensures IsSplit([], queue, queue)
  {
  }

  lemma ReadyFirst(external: set<string>, known: set<string>, order: seq<ParsedMessage>)
    requires order != [] && AllDepsResolved(external, known, order[0])
    requires IsReadyOrder(external, known + {MessageKey(order[0])}, order[1..])
    ensures IsReadyOrder(external, known, order)
  {
  }

  // No message is lost or doubled, and exactly a successful run leaves nothing.
  lemma {:induction false} RunKeepsEveryMessage(
    external: set<string>, known: set<string>, queue: seq<ParsedMessage>, iterations: nat, stagnant: nat)
    ensures var e := RunQueue(external, known, queue, iterations, stagnant);
      IsSplit(e.order, e.left, queue) && (e.outcome.Done? <==> e.left == [])
    decreases MAX_ITERATIONS - iterations
  {
    hide AllDepsResolved, IsSupported, MessageKey, IsSplit;
    NothingResolved(queue);
    if queue != [] && iterations < MAX_ITERATIONS {
      var m, rest := queue[0], queue[1..];
      if AllDepsResolved(external, known, m) {
        var e := RunQueue(external, known + {MessageKey(m)}, rest, iterations + 1, 0);
        RunKeepsEveryMessage(external, known + {MessageKey(m)}, rest, iterations + 1, 0);
        PutInFront(e.order, e.left, queue);
      } else if stagnant >= MAX_STAGNANT {
        NothingResolved(rest + [m]);
        RotatedSplit([], rest + [m], queue);
      } else {
        var e := RunQueue(external, known, rest + [m], iterations + 1, stagnant + 1);
        RunKeepsEveryMessage(external, known, rest + [m], iterations + 1, stagnant + 1);
        RotatedSplit(e.order, e.left, queue);
      }
    }
  }

  // What a run resolves is a ready order of supported messages.
  lemma {:induction false} RunResolvesReadyMessages(
    external: set<string>, known: set<string>, queue: seq<ParsedMessage>, iterations: nat, stagnant: nat)
    ensures var e := RunQueue(external, known, queue, iterations, stagnant);
      && IsReadyOrder(external, known, e.order) && AllSupported(e.order)
      && (e.outcome.Unsupported? ==> !AllSupported(e.left))
    decreases MAX_ITERATIONS - iterations
  {
    hide AllDepsResolved, IsSupported;
    if queue != [] && iterations < MAX_ITERATIONS {
      var m, rest := queue[0], queue[1..];
      if AllDepsResolved(external, known, m) {
        if IsSupported(m) {
          RunResolvesReadyMessages(external, known + {MessageKey(m)}, rest, iterations + 1, 0);
          var e := RunQueue(external, known + {MessageKey(m)}, rest, iterations + 1, 0);
          ReadyFirst(external, known, [m] + e.order);
        }
      } else if stagnant < MAX_STAGNANT {
        RunResolvesReadyMessages(external, known, rest + [m], iterations + 1, stagnant + 1);
      }
    }
  }

  // ----- the guards ---------------------------------------------------------------------------

  // The pops one resolution can take in a queue of k messages.
  function PopsFor(k: nat): nat {
    if k <= MAX_STAGNANT then k else MAX_STAGNANT + 1
  }

  // The pops that resolving n messages can take: the sum of min(k, 101) for k up to n.
  function Cost(n: nat): nat {
    if n == 0 then 0 else Cost(n - 1) + PopsFor(n)
  }

  lemma {:induction false} CostIsTriangular(n: nat)
    ensures 2 * Cost(n) <= n * (n + 1)
    ensures n <= 101 ==> 2 * Cost(n) == n * (n + 1)
  {
    if n > 0 {
      CostIsTriangular(n - 1);
      NextTriangle(n);
    }
  }

  lemma NextTriangle(n: nat)
    requires n > 0
    ensures n * (n + 1) == (n - 1) * (n - 1 + 1) + 2 * n
  {
  }

  lemma {:induction false} CostIsLinear(n: nat)
    requires n >= 101
    ensures Cost(n) == 5151 + 101 * (n - 101)
  {
    if n == 101 {
      CostIsTriangular(101);
    } else {
      CostIsLinear(n - 1);
    }
  }

  /**
   What the guards say, from any point of a run. A stall is real for the last 101 messages of
   the queue: none of them is ready after everything that was resolved. A run that succeeds
   takes at most min(k, 101) pops for each queue length k, one that does not at most 100 more,
   and the iteration cap needs all but one of these.
   */
  lemma {:induction false} GuardsFire(
    external: set<string>, known: set<string>, queue: seq<ParsedMessage>, iterations: nat, stagnant: nat)
    requires stagnant <= MAX_STAGNANT && (queue == [] ==> stagnant == 0)
    requires TailIsStuck(external, known, queue, stagnant)
    ensures var e := RunQueue(external, known, queue, iterations, stagnant);
      && (e.outcome.Stalled? ==> TailIsStuck(external, known + KeysOf(e.order), e.left, MAX_STAGNANT + 1))
      && (e.outcome.Done? ==> e.pops <= iterations + Cost(|queue|) - stagnant)
      && (!e.outcome.Done? ==> e.pops <= iterations + Cost(|queue|) + MAX_STAGNANT - stagnant)
      && (e.outcome.IterationLimit? ==> MAX_ITERATIONS <= iterations + Cost(|queue|) + MAX_STAGNANT - 1 - stagnant)
    decreases MAX_ITERATIONS - iterations
  {
    hide AllDepsResolved, IsSupported;
    if queue != [] && iterations < MAX_ITERATIONS {
      var m, rest := queue[0], queue[1..];
      if AllDepsResolved(external, known, m) {
        assert stagnant < |queue|;
        if IsSupported(m) {
          var next := known + {MessageKey(m)};
          GuardsFire(external, next, rest, iterations + 1, 0);
          var e := RunQueue(external, next, rest, iterations + 1, 0);
          assert next + KeysOf(e.order) == known + KeysOf([m] + e.order);
        }
      } else if stagnant < MAX_STAGNANT {
        GuardsFire(external, known, rest + [m], iterations + 1, stagnant + 1);
      } else {
        assert known + KeysOf([]) == known;
      }
    }
  }

  // Up to 148 messages the iteration cap cannot fire, whatever they reference.
  lemma CapNeverFires(external: set<string>, known: set<string>, messages: seq<ParsedMessage>)
    requires |messages| <= 148
    ensures !RunQueue(external, known, messages, 0, 0).outcome.IterationLimit?
  {
    hide AllDepsResolved, IsSupported, RunQueue;
    GuardsFire(external, known, messages, 0, 0);
    if |messages| >= 101 {
      CostIsLinear(|messages|);
    } else {
      CostIsTriangular(|messages|);
      assert |messages| * (|messages| + 1) <= 101 * 102;
    }
  }

  // A successful run over n messages makes at most n(n+1)/2 pops, and fewer beyond 101 messages.
  lemma PopsWithinTriangle(external: set<string>, known: set<string>, messages: seq<ParsedMessage>)
    ensures var e, n := RunQueue(external, known, messages, 0, 0), |messages|;
      e.outcome.Done? ==> e.pops <= Cost(n) && 2 * e.pops <= n * (n + 1)
  {
    hide AllDepsResolved, IsSupported, RunQueue;
    GuardsFire(external, known, messages, 0, 0);
    CostIsTriangular(|messages|);
  }

  /**
   A stall report is true: with at most 101 messages left, each of them references a type
   that is neither registered nor external.
   */
  lemma StallIsReal(external: set<string>, known: set<string>, messages: seq<ParsedMessage>)
    ensures var e := RunQueue(external, known, messages, 0, 0);
      e.outcome.Stalled? && |e.left| <= 101 ==>
        forall m <- e.left :: !AllDepsResolved(external, known + KeysOf(e.order), m)
  {
    hide AllDepsResolved, IsSupported, RunQueue;
    GuardsFire(external, known, messages, 0, 0);
  }

  // ----- completeness -------------------------------------------------------------------------

  // Messages that none of the others can unlock are in no ready order.
  lemma {:induction false} StuckMessagesAreInNoOrder(
    external: set<string>, known: set<string>, order: seq<ParsedMessage>, closure: set<string>,
    stuck: seq<ParsedMessage>)
    requires IsReadyOrder(external, known, order) && known <= closure
    requires forall m <- stuck :: !AllDepsResolved(external, closure, m)
    requires forall m <- order :: m in stuck || MessageKey(m) in closure
    ensures forall m <- order :: m !in stuck
    decreases order
  {
    hide AllDepsResolved;
    if order != [] {
      ReadyIsMonotonic(external, known, closure, order[0]);
      assert order[0] in order && order == [order[0]] + order[1..];
      StuckMessagesAreInNoOrder(external, known + {MessageKey(order[0])}, order[1..], closure, stuck);
    }
  }

  lemma StalledIsUnresolvable(external: set<string>, known: set<string>, messages: seq<ParsedMessage>)
    requires |messages| <= 101 && RunQueue(external, known, messages, 0, 0).outcome.Stalled?
    ensures !IsResolvable(external, known, messages)
  {
    hide AllDepsResolved, IsSupported, RunQueue, IsReadyOrder;
    RunKeepsEveryMessage(external, known, messages, 0, 0);
    RunResolvesReadyMessages(external, known, messages, 0, 0);
    StallIsReal(external, known, messages);
    var e := RunQueue(external, known, messages, 0, 0);
    assert |e.left| <= |multiset(messages)|;
    assert e.left[0] in multiset(messages);
    forall order | multiset(order) == multiset(messages) && IsReadyOrder(external, known, order) ensures false {
      forall m | m in order ensures m in e.left || m in e.order {
        assert m in multiset(order);
      }
      assert e.left[0] in e.left && e.left[0] in multiset(order);
      assert e.left[0] in order;
      StuckMessagesAreInNoOrder(external, known, order, known + KeysOf(e.order), e.left);
    }
  }

  /**
   Completeness within the guards: a batch of at most 101 messages is resolved exactly when
   some order has every message after what it references and every field type is supported.
   */
  lemma ResolverIsComplete(external: set<string>, known: set<string>, messages: seq<ParsedMessage>)
    requires |messages| <= 101
    ensures RunQueue(external, known, messages, 0, 0).outcome.Done?
       <==> IsResolvable(external, known, messages) && AllSupported(messages)
  {
    hide AllDepsResolved, IsSupported, RunQueue, IsReadyOrder;
    var e := RunQueue(external, known, messages, 0, 0);
    RunKeepsEveryMessage(external, known, messages, 0, 0);
    RunResolvesReadyMessages(external, known, messages, 0, 0);
    CapNeverFires(external, known, messages);
    if e.outcome.Done? {
      assert multiset(e.order) == multiset(messages);
      forall m | m in messages ensures IsSupported(m) {
        assert m in multiset(messages);
      }
    } else if e.outcome.Stalled? {
      StalledIsUnresolvable(external, known, messages);
    } else {
      var m :| m in e.left && !IsSupported(m);
      assert m in multiset(messages);
    }
  }

  // A queue already in such an order is resolved in one pass; then only the cap limits its size.
  lemma {:induction false} ReadyOrderIsOnePass(
    external: set<string>, known: set<string>, queue: seq<ParsedMessage>, iterations: nat, stagnant: nat)
    requires IsReadyOrder(external, known, queue) && AllSupported(queue)
    requires iterations + |queue| <= MAX_ITERATIONS
    ensures RunQueue(external, known, queue, iterations, stagnant) == Ended(Done, queue, [], iterations + |queue|)
    decreases queue
  {
    hide AllDepsResolved, IsSupported;
    if queue != [] {
      assert queue[0] in queue && queue == [queue[0]] + queue[1..];
      ReadyOrderIsOnePass(external, known + {MessageKey(queue[0])}, queue[1..], iterations + 1, 0);
    }
  }

  // ----- the bound is tight -------------------------------------------------------------------

  // The messages the resolver may be handed: parsed names, distinct new keys, own packages.
  predicate IsBatch(external: set<string>, known: set<string>, messages: seq<ParsedMessage>) {
    && (forall m <- messages :: WellNamed(m) && m.package !in external && MessageKey(m) !in known)
    && forall i, j | 0 <= i < j < |messages| :: MessageKey(messages[i]) != MessageKey(messages[j])
  }

  // A batch stays one in any order, and when messages are taken away.
  lemma BatchIsUnordered(
    external: set<string>, known: set<string>, messages: seq<ParsedMessage>, some: seq<ParsedMessage>)
    requires IsBatch(external, known, messages) && multiset(some) <= multiset(messages)
    ensures IsBatch(external, known, some)
  {
    hide WellNamed, MessageKey;
    forall m | m in some ensures m in messages {
      assert m in multiset(messages);
    }
    forall i, j | 0 <= i < j < |some| ensures MessageKey(some[i]) != MessageKey(some[j]) {
      if MessageKey(some[i]) == MessageKey(some[j]) {
        assert some[i] in some && some[j] in some;
        var p :| 0 <= p < |messages| && messages[p] == some[i];
        var q :| 0 <= q < |messages| && messages[q] == some[j];
        TwicePresent(some, i, j);
        OncePresent(messages, p);
      }
    }
  }

  lemma TwicePresent(messages: seq<ParsedMessage>, i: nat, j: nat)
    requires i < j < |messages| && messages[i] == messages[j]
    ensures multiset(messages)[messages[i]] >= 2
  {
    assert messages == messages[..j] + [messages[j]] + messages[j + 1..];
    assert messages[..j][i] in messages[..j];
  }

  lemma OncePresent(messages: seq<ParsedMessage>, p: nat)
    requires p < |messages| && forall i, j | 0 <= i < j < |messages| :: messages[i] != messages[j]
    ensures multiset(messages)[messages[p]] == 1
  {
    assert messages == messages[..p] + [messages[p]] + messages[p + 1..];
    assert messages[p] !in messages[..p] && messages[p] !in messages[p + 1..];
  }

  const BASE: ParsedMessage := ParsedMessage("p", "B", [])

  function Dependent(i: nat): ParsedMessage {
    ParsedMessage("p", seq(i + 1, _ => 'D'), [Field("b", FieldType("B", None, Single, None))])
  }

  function BaseLast(n: nat): seq<ParsedMessage> {
    seq(n, i requires 0 <= i => Dependent(i)) + [BASE]
  }

  lemma DependentNeedsBase(known: set<string>, i: nat)
    ensures AllDepsResolved({}, known, Dependent(i)) <==> "p/B" in known
    ensures IsSupported(Dependent(i)) && WellNamed(Dependent(i))
    ensures MessageKey(Dependent(i)) != "p/B" && |MessageKey(Dependent(i))| == i + 3
  {
    var m := Dependent(i);
    assert Key("p", "B") == "p/B";
    assert m.fields[0] in m.fields;
    assert MessageKey(m) == "p/" + m.name;
    assert MessageKey(m)[2] == m.name[0] == 'D';
  }

  lemma {:induction false} DependentsAreReady(known: set<string>, order: seq<ParsedMessage>)
    requires "p/B" in known && forall m <- order :: exists i: nat :: m == Dependent(i)
    ensures IsReadyOrder({}, known, order)
    decreases order
  {
    hide AllDepsResolved, IsSupported, WellNamed;
    if order != [] {
      assert order[0] in order;
      var i: nat :| order[0] == Dependent(i);
      DependentNeedsBase(known, i);
      assert forall m <- order[1..] :: m in order;
      DependentsAreReady(known + {MessageKey(order[0])}, order[1..]);
    }
  }

  lemma BaseLastIsResolvable(n: nat)
    ensures IsResolvable({}, {}, BaseLast(n))
  {
    hide IsReadyOrder, AllDepsResolved, IsSupported, WellNamed, Dependent;
    var dependents := BaseLast(n)[..n];
    BaseIsReady();
    DependentsAreReady({} + {MessageKey(BASE)}, dependents);
    var order := [BASE] + dependents;
    assert order[1..] == dependents;
    ReadyFirst({}, {}, order);
    assert BaseLast(n) == dependents + [BASE];
    assert multiset(order) == multiset(BaseLast(n));
  }

  lemma BaseLastIsBatch(n: nat)
    ensures IsBatch({}, {}, BaseLast(n)) && AllSupported(BaseLast(n))
  {
    hide AllDepsResolved, IsSupported, WellNamed, Dependent, MessageKey;
    forall i | 0 <= i < n ensures |MessageKey(BaseLast(n)[i])| == i + 3 && MessageKey(BaseLast(n)[i]) != "p/B"
      && IsSupported(BaseLast(n)[i]) && WellNamed(BaseLast(n)[i])
    {
      DependentNeedsBase({}, i);
    }
    BaseIsReady();
  }

  lemma BaseIsReady()
    ensures AllDepsResolved({}, {}, BASE) && IsSupported(BASE) && WellNamed(BASE) && MessageKey(BASE) == "p/B"
  {
  }

  // The guard counts pops: 101 messages in a row that are not ready end the run.
  lemma {:induction false} HeadOfTheQueueStalls(
    external: set<string>, known: set<string>, queue: seq<ParsedMessage>, iterations: nat, stagnant: nat)
    requires stagnant <= MAX_STAGNANT && MAX_STAGNANT + 1 - stagnant <= |queue|
    requires iterations + MAX_STAGNANT - stagnant < MAX_ITERATIONS
    requires forall i | 0 <= i < MAX_STAGNANT + 1 - stagnant :: !AllDepsResolved(external, known, queue[i])
    ensures RunQueue(external, known, queue, iterations, stagnant).outcome.Stalled?
    decreases MAX_STAGNANT - stagnant
  {
    hide AllDepsResolved, IsSupported;
    if stagnant < MAX_STAGNANT {
      HeadOfTheQueueStalls(external, known, queue[1..] + [queue[0]], iterations + 1, stagnant + 1);
    }
  }

  lemma BaseLastStalls(n: nat)
    requires n >= 101
    ensures RunQueue({}, {}, BaseLast(n), 0, 0).outcome.Stalled?
  {
    hide AllDepsResolved, IsSupported, WellNamed, RunQueue, Dependent;
    forall i | 0 <= i < n ensures !AllDepsResolved({}, {}, BaseLast(n)[i]) {
      DependentNeedsBase({}, i);
    }
    HeadOfTheQueueStalls({}, {}, BaseLast(n), 0, 0);
  }

  ghost predicate EveryBatchOfSizeSucceeds(n: nat) {
    forall external, known, messages ::
      |messages| == n && IsBatch(external, known, messages) && AllSupported(messages)
      && IsResolvable(external, known, messages) ==>
        RunQueue(external, known, messages, 0, 0).outcome.Done?
  }

  // 101 is the exact limit: from 102 messages on some resolvable batch is reported as stalled.
  lemma CompleteExactlyUpTo101(n: nat)
    ensures EveryBatchOfSizeSucceeds(n) <==> n <= 101
  {
    hide AllDepsResolved, IsSupported, RunQueue, IsReadyOrder, IsBatch;
    if n <= 101 {
      forall external, known, messages |
        |messages| == n && AllSupported(messages) && IsResolvable(external, known, messages)
        ensures RunQueue(external, known, messages, 0, 0).outcome.Done?
      {
        ResolverIsComplete(external, known, messages);
      }
    } else {
      BaseLastIsBatch(n - 1);
      BaseLastIsResolvable(n - 1);
      BaseLastStalls(n - 1);
      assert |BaseLast(n - 1)| == n;
    }
  }

  // ----- the pop bounds are sharp ---------------------------------------------------------------

  // A chain: each link references the one before it.
  function Link(i: nat): ParsedMessage {
    ParsedMessage("p", LinkName(i), if i == 0 then [] else [Field("f", FieldType(LinkName(i - 1), None, Single, None))])
  }

  function LinkName(i: nat): string {
    seq(i + 1, _ => 'L')
  }

  // A message that can never be resolved.
  const STUCK: ParsedMessage := ParsedMessage("p", "X", [Field("f", FieldType("Y", None, Single, None))])

  function LinkKeys(n: nat): (r: set<string>)
    ensures forall k :: k in r <==> exists i: nat :: i < n && MessageKey(Link(i)) == k
  {
    set i | 0 <= i < n :: MessageKey(Link(i))
  }

  lemma AboutLinks(n: nat, i: nat)
    ensures AllDepsResolved({}, LinkKeys(n), Link(i)) <==> i <= n
    ensures IsSupported(Link(i)) && WellNamed(Link(i)) && |MessageKey(Link(i))| == i + 3
    ensures MessageKey(Link(i)) != MessageKey(STUCK)
  {
    LinkNames(i);
    assert MessageKey(Link(i)) == "p/" + LinkName(i) && MessageKey(STUCK) == "p/X";
    assert MessageKey(Link(i))[2] == 'L';
    if i > 0 {
      var m := Link(i);
      LinkNames(i - 1);
      assert m.fields[0] in m.fields;
      assert Key("p", LinkName(i - 1)) == MessageKey(Link(i - 1));
      assert AllDepsResolved({}, LinkKeys(n), m) <==> MessageKey(Link(i - 1)) in LinkKeys(n);
      KeyOfLink(n, i - 1);
    }
  }

  lemma LinkNames(i: nat)
    ensures !IsPrimitive(LinkName(i)) && SlashFree(LinkName(i)) && |LinkName(i)| == i + 1 && LinkName(i)[0] == 'L'
    ensures LinkName(i) != "string"
  {
    var name := LinkName(i);
    assert forall base :: IsPrimitive(base) ==> base[0] != 'L';
  }

  lemma KeyOfLink(n: nat, i: nat)
    ensures MessageKey(Link(i)) in LinkKeys(n) <==> i < n
  {
    forall j: nat | MessageKey(Link(j)) == MessageKey(Link(i)) ensures i == j {
      assert |MessageKey(Link(j))| == j + 3 && |MessageKey(Link(i))| == i + 3;
    }
  }

  lemma AboutStuck(n: nat)
    ensures !AllDepsResolved({}, LinkKeys(n), STUCK) && WellNamed(STUCK)
  {
    assert STUCK.fields[0] in STUCK.fields;
    assert Key("p", "Y") == "p/Y";
    forall i: nat ensures MessageKey(Link(i)) != "p/Y" {
      LinkNames(i);
      assert MessageKey(Link(i)) == "p/" + LinkName(i);
      assert MessageKey(Link(i))[2] == 'L';
    }
  }

  /**
   The last k of n links in the order that costs most: at each length the ready one is as far
   back as the stagnation guard allows. With `stuck` the last message can never be resolved.
   */
  function Worst(n: nat, k: nat, stuck: bool): (r: seq<ParsedMessage>)
    requires k <= n
    ensures |r| == k
  {
    if k == 0 then []
    else if k == 1 && stuck then [STUCK]
    else
      var rest, i := Worst(n, k - 1, stuck), k - PopsFor(k);
      rest[i..] + [Link(n - k)] + rest[..i]
  }

  // A later link of the chain, or the stuck message.
  predicate IsLaterLink(n: nat, k: nat, stuck: bool, m: ParsedMessage) {
    (stuck && m == STUCK) || exists i | n - k <= i < n && 0 <= i :: m == Link(i)
  }

  lemma WorstMembers(n: nat, k: nat, stuck: bool, m: ParsedMessage)
    requires 0 < k <= n && !(k == 1 && stuck) && m in Worst(n, k, stuck)
    ensures m in Worst(n, k - 1, stuck) || m == Link(n - k)
  {
    hide Link, Worst;
    WorstShape(n, k, stuck);
  }

  lemma LaterIsStillLater(n: nat, k: nat, stuck: bool, m: ParsedMessage)
    requires 0 < k <= n && (IsLaterLink(n, k - 1, stuck, m) || m == Link(n - k))
    ensures IsLaterLink(n, k, stuck, m)
  {
    hide Link;
  }

  lemma {:induction false} WorstIsMadeOfLinks(n: nat, k: nat, stuck: bool, m: ParsedMessage)
    requires k <= n && m in Worst(n, k, stuck)
    ensures IsLaterLink(n, k, stuck, m)
    decreases k
  {
    hide Link, IsLaterLink, Worst;
    WorstEnds(n, stuck);
    if k == 1 && stuck {
      StuckIsLater(n);
    } else {
      WorstMembers(n, k, stuck, m);
      if m in Worst(n, k - 1, stuck) {
        WorstIsMadeOfLinks(n, k - 1, stuck, m);
      }
      LaterIsStillLater(n, k, stuck, m);
    }
  }

  lemma WorstEnds(n: nat, stuck: bool)
    ensures Worst(n, 0, stuck) == [] && (n > 0 && stuck ==> Worst(n, 1, stuck) == [STUCK])
  {
  }

  lemma WorstShape(n: nat, k: nat, stuck: bool)
    requires 0 < k <= n && !(k == 1 && stuck)
    ensures var rest, i := Worst(n, k - 1, stuck), k - PopsFor(k);
      Worst(n, k, stuck) == rest[i..] + [Link(n - k)] + rest[..i]
  {
  }

  lemma StuckIsLater(n: nat)
    ensures IsLaterLink(n, 1, true, STUCK)
  {
  }

  // None of them is ready before the chain has reached it, and none has the key of this link.
  lemma LaterLinksWait(n: nat, k: nat, stuck: bool, m: ParsedMessage)
    requires 0 < k <= n && IsLaterLink(n, k - 1, stuck, m)
    ensures !AllDepsResolved({}, LinkKeys(n - k), m) && MessageKey(m) != MessageKey(Link(n - k))
  {
    hide AllDepsResolved, Link, LinkKeys, IsSupported, WellNamed, MessageKey;
    AboutLinks(0, n - k);
    if m == STUCK {
      AboutStuck(n - k);
    } else {
      var i: nat :| n - k + 1 <= i < n && m == Link(i);
      AboutLinks(n - k, i);
    }
  }

  // Whatever is not ready goes to the back.
  lemma {:induction false} RunRotates(
    external: set<string>, known: set<string>, queue: seq<ParsedMessage>, count: nat, iterations: nat, stagnant: nat)
    requires count <= |queue| && stagnant + count <= MAX_STAGNANT && iterations + count <= MAX_ITERATIONS
    requires forall i | 0 <= i < count :: !AllDepsResolved(external, known, queue[i])
    ensures RunQueue(external, known, queue, iterations, stagnant)
         == RunQueue(external, known, queue[count..] + queue[..count], iterations + count, stagnant + count)
    decreases count
  {
    hide AllDepsResolved, IsSupported;
    if count == 0 {
      assert queue[0..] + queue[..0] == queue;
    } else {
      var next := queue[1..] + [queue[0]];
      RunRotates(external, known, next, count - 1, iterations + 1, stagnant + 1);
      assert next[count - 1..] + next[..count - 1] == queue[count..] + queue[..count];
    }
  }

  lemma Rotation(rest: seq<ParsedMessage>, m: ParsedMessage, i: nat)
    requires i <= |rest|
    ensures var queue, j := rest[i..] + [m] + rest[..i], |rest| - i;
      queue[j] == m && queue[j..] + queue[..j] == [m] + rest
  {
    var queue, j := rest[i..] + [m] + rest[..i], |rest| - i;
    assert queue[j..] == [m] + rest[..i] && queue[..j] == rest[i..];
    assert rest[..i] + rest[i..] == rest;
  }

  // One link: everything in front of it goes to the back, then it is resolved.
  lemma WorstStep(n: nat, k: nat, stuck: bool, iterations: nat, stagnant: nat)
    requires 0 < k <= n && !(k == 1 && stuck) && iterations + PopsFor(k) <= MAX_ITERATIONS
    requires stagnant + PopsFor(k) <= MAX_STAGNANT + 1
    ensures var a := RunQueue({}, LinkKeys(n - k), Worst(n, k, stuck), iterations, stagnant);
      var b := RunQueue({}, LinkKeys(n - k + 1), Worst(n, k - 1, stuck), iterations + PopsFor(k), 0);
      a.outcome == b.outcome && a.pops == b.pops
  {
    hide AllDepsResolved, IsSupported, RunQueue, Link, LinkKeys, Worst;
    WorstShape(n, k, stuck);
    var queue, rest, front := Worst(n, k, stuck), Worst(n, k - 1, stuck), PopsFor(k) - 1;
    var link, known := Link(n - k), LinkKeys(n - k);
    Rotation(rest, link, k - PopsFor(k));
    WorstFrontIsStuck(n, k, stuck, front);
    RunRotates({}, known, queue, front, iterations, stagnant);
    AboutLinks(n - k, n - k);
    OneMoreLink(n - k);
    ResolveFirst(known, link, rest, iterations + front, stagnant + front);
  }

  lemma ResolveFirst(known: set<string>, m: ParsedMessage, rest: seq<ParsedMessage>, iterations: nat, stagnant: nat)
    requires iterations < MAX_ITERATIONS && AllDepsResolved({}, known, m) && IsSupported(m)
    ensures var a := RunQueue({}, known, [m] + rest, iterations, stagnant);
      var b := RunQueue({}, known + {MessageKey(m)}, rest, iterations + 1, 0);
      a.outcome == b.outcome && a.pops == b.pops
  {
    hide AllDepsResolved, IsSupported;
    assert ([m] + rest)[1..] == rest;
  }

  lemma OneMoreLink(n: nat)
    ensures LinkKeys(n) + {MessageKey(Link(n))} == LinkKeys(n + 1)
  {
    hide Link;
  }

  lemma WorstFrontIsStuck(n: nat, k: nat, stuck: bool, count: nat)
    requires 0 < k <= n && !(k == 1 && stuck) && count < PopsFor(k)
    ensures forall i | 0 <= i < count :: !AllDepsResolved({}, LinkKeys(n - k), Worst(n, k, stuck)[i])
  {
    hide AllDepsResolved, Worst, Link, LinkKeys, IsLaterLink;
    var rest, at := Worst(n, k - 1, stuck), k - PopsFor(k);
    forall i | 0 <= i < count ensures !AllDepsResolved({}, LinkKeys(n - k), Worst(n, k, stuck)[i]) {
      WorstFront(n, k, stuck, i);
      assert rest[at + i] in rest;
      WorstIsMadeOfLinks(n, k - 1, stuck, rest[at + i]);
      LaterLinksWait(n, k, stuck, rest[at + i]);
    }
  }

  lemma WorstFront(n: nat, k: nat, stuck: bool, i: nat)
    requires 0 < k <= n && !(k == 1 && stuck) && i < PopsFor(k) - 1
    ensures Worst(n, k, stuck)[i] == Worst(n, k - 1, stuck)[k - PopsFor(k) + i]
  {
    hide Link, Worst;
    WorstShape(n, k, stuck);
  }

  lemma NothingQueued(known: set<string>, iterations: nat)
    ensures RunQueue({}, known, [], iterations, 0) == Ended(Done, [], [], iterations)
  {
  }

  // Resolving the chain in the worst order takes every pop the bound allows.
  lemma {:induction false} WorstCost(n: nat, k: nat, iterations: nat)
    requires k <= n && iterations + Cost(k) <= MAX_ITERATIONS
    ensures var e := RunQueue({}, LinkKeys(n - k), Worst(n, k, false), iterations, 0);
      e.outcome.Done? && e.pops == iterations + Cost(k)
    decreases k
  {
    hide RunQueue, Link, LinkKeys;
    if k == 0 {
      NothingQueued(LinkKeys(n), iterations);
    } else {
      WorstStep(n, k, false, iterations, 0);
      WorstCost(n, k - 1, iterations + PopsFor(k));
    }
  }

  lemma {:induction false} StuckAlone(known: set<string>, iterations: nat, stagnant: nat)
    requires !AllDepsResolved({}, known, STUCK) && stagnant <= MAX_STAGNANT
    requires iterations <= MAX_ITERATIONS <= iterations + MAX_STAGNANT - stagnant
    ensures RunQueue({}, known, [STUCK], iterations, stagnant).outcome.IterationLimit?
    decreases MAX_STAGNANT - stagnant
  {
    hide AllDepsResolved, IsSupported;
    if iterations < MAX_ITERATIONS {
      assert [STUCK][1..] + [STUCK] == [STUCK];
      StuckAlone(known, iterations + 1, stagnant + 1);
    }
  }

  lemma AtTheCap(known: set<string>, queue: seq<ParsedMessage>, stagnant: nat)
    requires queue != []
    ensures RunQueue({}, known, queue, MAX_ITERATIONS, stagnant).outcome.IterationLimit?
  {
  }

  lemma OnlyStuck(n: nat)
    requires n > 0
    ensures Worst(n, 1, true) == [STUCK] && Cost(1) == 1
  {
  }

  // With a stuck message at the end the cap fires as soon as the bound allows it.
  lemma {:induction false} WorstHitsTheCap(n: nat, k: nat, iterations: nat)
    requires 0 < k <= n && iterations <= MAX_ITERATIONS <= iterations + Cost(k) + MAX_STAGNANT - 1
    ensures RunQueue({}, LinkKeys(n - k), Worst(n, k, true), iterations, 0).outcome.IterationLimit?
    decreases k
  {
    hide AllDepsResolved, IsSupported, Link, LinkKeys, RunQueue, Worst;
    var known, queue := LinkKeys(n - k), Worst(n, k, true);
    if k == 1 {
      AboutStuck(n - 1);
      OnlyStuck(n);
      StuckAlone(known, iterations, 0);
    } else if iterations + PopsFor(k) > MAX_ITERATIONS {
      var count := MAX_ITERATIONS - iterations;
      WorstFrontIsStuck(n, k, true, count);
      RunRotates({}, known, queue, count, iterations, 0);
      AtTheCap(known, queue[count..] + queue[..count], count);
    } else {
      WorstStep(n, k, true, iterations, 0);
      WorstHitsTheCap(n, k - 1, iterations + PopsFor(k));
    }
  }

  lemma {:induction false} WorstIsBatch(n: nat, k: nat, stuck: bool)
    requires k <= n
    ensures IsBatch({}, {}, Worst(n, k, stuck))
    decreases k
  {
    hide IsBatch, Link, WellNamed, MessageKey, Worst;
    if k == 0 {
      NoBatch();
      assert Worst(n, 0, stuck) == [];
    } else if k == 1 && stuck {
      AboutStuck(0);
      NoBatch();
      OneMoreMessage(STUCK, []);
      OnlyStuck(n);
      assert [STUCK] + [] == [STUCK];
    } else {
      WorstIsBatch(n, k - 1, stuck);
      AboutLinks(0, n - k);
      NewLink(n, k, stuck);
      WorstShape(n, k, stuck);
      InsertedIsBatch(Worst(n, k - 1, stuck), Link(n - k), k - PopsFor(k));
    }
  }

  lemma NoBatch()
    ensures IsBatch({}, {}, [])
  {
  }

  lemma NewLink(n: nat, k: nat, stuck: bool)
    requires 0 < k <= n
    ensures forall m <- Worst(n, k - 1, stuck) :: MessageKey(m) != MessageKey(Link(n - k))
  {
    hide Worst, Link, MessageKey, IsLaterLink;
    forall m | m in Worst(n, k - 1, stuck) ensures MessageKey(m) != MessageKey(Link(n - k)) {
      WorstIsMadeOfLinks(n, k - 1, stuck, m);
      LaterLinksWait(n, k, stuck, m);
    }
  }

  lemma InsertedIsBatch(rest: seq<ParsedMessage>, m: ParsedMessage, i: nat)
    requires i <= |rest| && IsBatch({}, {}, rest) && WellNamed(m) && forall x <- rest :: MessageKey(x) != MessageKey(m)
    ensures IsBatch({}, {}, rest[i..] + [m] + rest[..i])
  {
    hide IsBatch, WellNamed, MessageKey;
    OneMoreMessage(m, rest);
    assert rest == rest[..i] + rest[i..];
    assert multiset(rest[i..] + [m] + rest[..i]) == multiset([m] + rest);
    BatchIsUnordered({}, {}, [m] + rest, rest[i..] + [m] + rest[..i]);
  }

  lemma OneMoreMessage(m: ParsedMessage, rest: seq<ParsedMessage>)
    requires IsBatch({}, {}, rest) && WellNamed(m) && forall x <- rest :: MessageKey(x) != MessageKey(m)
    ensures IsBatch({}, {}, [m] + rest)
  {
    hide WellNamed, MessageKey;
  }

  lemma NoLinksYet()
    ensures LinkKeys(0) == {}
  {
  }

  // The bound on the pops of a successful run is attained, as far as the cap lets it.
  lemma PopBoundIsSharp(n: nat)
    requires Cost(n) <= MAX_ITERATIONS
    ensures exists messages ::
      (|messages| == n && IsBatch({}, {}, messages)
       && RunQueue({}, {}, messages, 0, 0).outcome.Done? && RunQueue({}, {}, messages, 0, 0).pops == Cost(n))
  {
    hide IsBatch, RunQueue;
    NoLinksYet();
    WorstIsBatch(n, n, false);
    WorstCost(n, n, 0);
  }

  ghost predicate CapCanFire(n: nat) {
    exists external, known, messages ::
      (|messages| == n && IsBatch(external, known, messages)
       && RunQueue(external, known, messages, 0, 0).outcome.IterationLimit?)
  }

  // 149 is the exact size from which the iteration cap can fire.
  lemma CapCanFireFrom149(n: nat)
    ensures CapCanFire(n) <==> n >= 149
  {
    hide IsBatch, RunQueue;
    if n >= 149 {
      CostIsLinear(n);
      CostIsLinear(149);
      NoLinksYet();
      WorstIsBatch(n, n, true);
      CapReached(n);
    } else {
      forall external, known, messages | |messages| == n
        ensures !RunQueue(external, known, messages, 0, 0).outcome.IterationLimit?
      {
        CapNeverFires(external, known, messages);
      }
    }
  }

  lemma CapReached(n: nat)
    requires n >= 149
    ensures RunQueue({}, {}, Worst(n, n, true), 0, 0).outcome.IterationLimit?
  {
    hide RunQueue;
    CostIsLinear(n);
    NoLinksYet();
    WorstHitsTheCap(n, n, 0);
  }
}
