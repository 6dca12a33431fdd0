/**
 `RingChannel`: a Go channel with ring-buffer semantics, shared by producers that
 hold a mutex and consumers that do not. The model interleaves single steps of any
 number of callbacks, drop calls and receives.
 */
module RingChannel {

  // A message together with the callback invocation that delivered it.
  datatype Item<T> = Item(call: nat, message: T)

  // Where a goroutine is inside the callback or the drop function.
  datatype Pc<T> =
    | Idle
    | WantLock(item: Item<T>)      // callback: r.mu.Lock()
    | CheckClosed(item: Item<T>)   // if r.closed
    | TrySend(item: Item<T>)       // select
    | DropOldest(item: Item<T>)    // <-r.channel
    | Retry(item: Item<T>)         // r.channel <- msg
    | WantLockToClose              // drop: r.mu.Lock()
    | CheckBeforeClose             // if !r.closed
    | CloseChannel                 // close(r.channel)
    | Unlock                       // the deferred r.mu.Unlock()

  datatype Taken<T> = Received(item: Item<T>) | Dropped(item: Item<T>, dropper: nat)

  datatype Option<T> = None | Some(value: T)

  datatype State<T> = State(
    capacity: nat,
    queue: seq<Item<T>>,
    closed: bool,               // the field r.closed
    channelClosed: bool,        // close(r.channel) has run
    holder: Option<nat>,        // the goroutine that holds r.mu
    pc: map<nat, Pc<T>>,
    calls: nat,                 // callback invocations so far
    refused: seq<Item<T>>,      // history: messages a closed channel turned away
    accepted: seq<Item<T>>,     // history: everything sent into the channel
    taken: seq<Taken<T>>)       // history: everything that left it

  datatype Step<T> =
    | Call(thread: nat, message: T)
    | CallDrop(thread: nat)
    | Advance(thread: nat)
    | Receive

  function At<T>(s: State<T>, thread: nat): Pc<T> {
    if thread in s.pc then s.pc[thread] else Idle
  }

  function Initial<T>(capacity: nat): State<T> {
    State(capacity, [], false, false, None, map[], 0, [], [], [])
  }

  // A step that cannot be taken blocks: a held mutex, an empty or a full channel.
  predicate Enabled<T>(s: State<T>, step: Step<T>) {
    match step
    case Call(thread, _) => At(s, thread).Idle?
    case CallDrop(thread) => At(s, thread).Idle?
    case Receive => s.queue != []
    case Advance(thread) =>
      match At(s, thread)
      case Idle => false
      case WantLock(_) | WantLockToClose => s.holder.None?
      case DropOldest(_) => s.queue != []
      case Retry(_) => |s.queue| < s.capacity
      case _ => true
  }

  function Goto<T>(s: State<T>, thread: nat, pc: Pc<T>): State<T> {
    s.(pc := s.pc[thread := pc])
  }

  function Send<T>(s: State<T>, item: Item<T>): State<T> {
    s.(queue := s.queue + [item], accepted := s.accepted + [item])
  }

  function Do<T>(s: State<T>, step: Step<T>): State<T>
    requires Enabled(s, step)
  {
    match step
    case Call(thread, message) => Goto(s, thread, WantLock(Item(s.calls, message))).(calls := s.calls + 1)
    case CallDrop(thread) => Goto(s, thread, WantLockToClose)
    case Receive => s.(queue := s.queue[1..], taken := s.taken + [Received(s.queue[0])])
    case Advance(thread) =>
      match At(s, thread)
      case WantLock(item) => Goto(s, thread, CheckClosed(item)).(holder := Some(thread))
      case CheckClosed(item) =>
        if s.closed then Goto(s, thread, Unlock).(refused := s.refused + [item])
        else Goto(s, thread, TrySend(item))
      case TrySend(item) =>
        if |s.queue| < s.capacity then Goto(Send(s, item), thread, Unlock)
        else Goto(s, thread, DropOldest(item))
      case DropOldest(item) =>
        Goto(s, thread, Retry(item)).(queue := s.queue[1..], taken := s.taken + [Dropped(s.queue[0], item.call)])
      case Retry(item) => Goto(Send(s, item), thread, Unlock)
      case WantLockToClose => Goto(s, thread, CheckBeforeClose).(holder := Some(thread))
      case CheckBeforeClose =>
        if s.closed then Goto(s, thread, Unlock) else Goto(s, thread, CloseChannel).(closed := true)
      case CloseChannel => Goto(s, thread, Unlock).(channelClosed := true)
      case Unlock => Goto(s, thread, Idle).(holder := None)
  }

  predicate IsRun<T>(s: State<T>, steps: seq<Step<T>>)
    decreases steps
  {
    steps == [] || (Enabled(s, steps[0]) && IsRun(Do(s, steps[0]), steps[1..]))
  }

  function After<T>(s: State<T>, steps: seq<Step<T>>): State<T>
    requires IsRun(s, steps)
    decreases steps
  {
    if steps == [] then s else After(Do(s, steps[0]), steps[1..])
  }

  // ----- what is claimed of every reachable state -----------------------------------------

  function Items<T>(taken: seq<Taken<T>>): (r: seq<Item<T>>)
    ensures |r| == |taken| && forall i | 0 <= i < |taken| :: r[i] == taken[i].item
  {
    seq(|taken|, i requires 0 <= i < |taken| => taken[i].item)
  }

  // The goroutine is between Lock and Unlock.
  predicate InSection<T>(pc: Pc<T>) {
    !pc.Idle? && !pc.WantLock? && !pc.WantLockToClose?
  }

  // The goroutine still has a message to send.
  predicate HasItem<T>(pc: Pc<T>) {
    pc.WantLock? || pc.CheckClosed? || pc.TrySend? || pc.DropOldest? || pc.Retry?
  }

  // Messages leave in acceptance order, and what was accepted is what left or is queued.
  predicate InOrder<T(==)>(accepted: seq<Item<T>>, taken: seq<Taken<T>>, queue: seq<Item<T>>) {
    accepted == Items(taken) + queue
  }

  predicate Bounded<T>(s: State<T>) {
    |s.queue| <= s.capacity
  }

  // A callback at its retry finds room, so the second send never blocks.
  predicate RetryHasRoom<T>(s: State<T>) {
    forall t <- s.pc :: s.pc[t].Retry? ==> |s.queue| < s.capacity
  }

  // Nobody is about to send on, or to close, a channel that is closed.
  predicate NoUseAfterClose<T>(s: State<T>) {
    s.channelClosed ==> forall t <- s.pc ::
      !s.pc[t].TrySend? && !s.pc[t].DropOldest? && !s.pc[t].Retry? && !s.pc[t].CloseChannel?
  }

  // No callback drops twice.
  predicate DropsAtMostOnce<T>(taken: seq<Taken<T>>) {
    forall i, j | 0 <= i < j < |taken| && taken[i].Dropped? && taken[j].Dropped? ::
      taken[i].dropper != taken[j].dropper
  }

  // Every message is accepted at most once.
  predicate AcceptedOnce<T>(accepted: seq<Item<T>>) {
    forall i, j | 0 <= i < j < |accepted| :: accepted[i].call != accepted[j].call
  }

  // ----- the invariant ---------------------------------------------------------------------

  // Only the holder is between Lock and Unlock.
  predicate Exclusive<T>(s: State<T>) {
    && (s.holder.Some? ==> s.holder.value in s.pc)
    && forall t <- s.pc :: InSection(s.pc[t]) <==> s.holder == Some(t)
  }

  predicate ClosedFlag<T>(s: State<T>) {
    && (s.channelClosed ==> s.closed)
    && forall t <- s.pc ::
         && (s.pc[t].TrySend? || s.pc[t].DropOldest? || s.pc[t].Retry? ==> !s.closed)
         && (s.pc[t].CloseChannel? ==> s.closed && !s.channelClosed)
  }

  // Call numbers in the histories have been handed out already.
  predicate CallsAreOld<T>(accepted: seq<Item<T>>, taken: seq<Taken<T>>, calls: nat) {
    && (forall i | 0 <= i < |accepted| :: accepted[i].call < calls)
    && forall i | 0 <= i < |taken| && taken[i].Dropped? :: taken[i].dropper < calls
  }

  // A callback that still has its message has sent nothing, and has dropped only at its retry.
  predicate Pending<T>(pc: Pc<T>, accepted: seq<Item<T>>, taken: seq<Taken<T>>, calls: nat) {
    HasItem(pc) ==>
      && pc.item.call < calls
      && (forall i | 0 <= i < |accepted| :: accepted[i].call != pc.item.call)
      && (!pc.Retry? ==> forall i | 0 <= i < |taken| && taken[i].Dropped? :: taken[i].dropper != pc.item.call)
  }

  predicate AllPending<T>(s: State<T>) {
    forall t <- s.pc :: Pending(s.pc[t], s.accepted, s.taken, s.calls)
  }

  predicate OwnCalls<T>(s: State<T>) {
    forall t <- s.pc, u <- s.pc | t != u && HasItem(s.pc[t]) && HasItem(s.pc[u]) ::
      s.pc[t].item.call != s.pc[u].item.call
  }

  ghost predicate Invariant<T(!new)>(s: State<T>) {
    && s.capacity > 0 && Bounded(s)
    && InOrder(s.accepted, s.taken, s.queue) && AcceptedOnce(s.accepted) && DropsAtMostOnce(s.taken)
    && CallsAreOld(s.accepted, s.taken, s.calls) && AllPending(s) && OwnCalls(s)
    && Exclusive(s) && ClosedFlag(s) && RetryHasRoom(s) && NoUseAfterClose(s)
  }

  lemma InitialIsSafe<T(!new)>(capacity: nat)
    requires capacity > 0
    ensures Invariant(Initial<T>(capacity))
  {
  }

  lemma TakeKeepsOrder<T>(s: State<T>, t: Taken<T>)
    requires InOrder(s.accepted, s.taken, s.queue) && s.queue != [] && t.item == s.queue[0]
    ensures InOrder(s.accepted, s.taken + [t], s.queue[1..])
  {
    assert Items(s.taken + [t]) == Items(s.taken) + [s.queue[0]];
  }

  lemma ReceiveKeeps<T(!new)>(s: State<T>)
    requires Invariant(s) && Enabled(s, Receive)
    ensures Invariant(Do(s, Receive))
  {
    TakeKeepsOrder(s, Received(s.queue[0]));
    hide InOrder, AcceptedOnce;
  }

  lemma CallKeeps<T(!new)>(s: State<T>, thread: nat, message: T)
    requires Invariant(s) && Enabled(s, Call(thread, message))
    ensures Invariant(Do(s, Call(thread, message)))
  {
    hide InOrder, AcceptedOnce, DropsAtMostOnce;
  }

  lemma SendKeeps<T(!new)>(s: State<T>, thread: nat)
    requires Invariant(s) && Enabled(s, Advance(thread))
    requires At(s, thread).Retry? || (At(s, thread).TrySend? && |s.queue| < s.capacity)
    ensures Invariant(Do(s, Advance(thread)))
  {
    var s' := Do(s, Advance(thread));
    assert s'.accepted == Items(s'.taken) + s'.queue;
    hide Items, DropsAtMostOnce;
  }

  lemma DropKeeps<T(!new)>(s: State<T>, thread: nat)
    requires Invariant(s) && Enabled(s, Advance(thread)) && At(s, thread).DropOldest?
    ensures Invariant(Do(s, Advance(thread)))
  {
    TakeKeepsOrder(s, Dropped(s.queue[0], At(s, thread).item.call));
    hide InOrder, AcceptedOnce;
  }

  // The steps that touch neither the queue nor a history, a call to drop among them.
  lemma LockKeeps<T(!new)>(s: State<T>, thread: nat)
    requires Invariant(s) && Enabled(s, Advance(thread))
    requires At(s, thread).WantLock? || At(s, thread).WantLockToClose?
    ensures Invariant(Do(s, Advance(thread)))
  {
    hide InOrder, AcceptedOnce, DropsAtMostOnce, CallsAreOld, Pending;
    PendingAt(s, thread, Do(s, Advance(thread)).pc[thread]);
  }

  lemma CallDropKeeps<T(!new)>(s: State<T>, thread: nat)
    requires Invariant(s) && Enabled(s, CallDrop(thread))
    ensures Invariant(Do(s, CallDrop(thread)))
  {
    hide InOrder, AcceptedOnce, DropsAtMostOnce, CallsAreOld, Pending;
    PendingAt(s, thread, WantLockToClose);
  }

  lemma UnlockKeeps<T(!new)>(s: State<T>, thread: nat)
    requires Invariant(s) && Enabled(s, Advance(thread)) && At(s, thread).Unlock?
    ensures Invariant(Do(s, Advance(thread)))
  {
    hide InOrder, AcceptedOnce, DropsAtMostOnce, CallsAreOld, Pending;
    PendingAt(s, thread, Idle);
  }

  lemma CheckKeeps<T(!new)>(s: State<T>, thread: nat)
    requires Invariant(s) && Enabled(s, Advance(thread))
    requires At(s, thread).CheckClosed? || (At(s, thread).TrySend? && |s.queue| >= s.capacity)
    ensures Invariant(Do(s, Advance(thread)))
  {
    hide InOrder, AcceptedOnce, DropsAtMostOnce, CallsAreOld, Pending;
    PendingAt(s, thread, Do(s, Advance(thread)).pc[thread]);
  }

  lemma CloseKeeps<T(!new)>(s: State<T>, thread: nat)
    requires Invariant(s) && Enabled(s, Advance(thread))
    requires At(s, thread).CheckBeforeClose? || At(s, thread).CloseChannel?
    ensures Invariant(Do(s, Advance(thread)))
  {
    hide InOrder, AcceptedOnce, DropsAtMostOnce, CallsAreOld, Pending;
    PendingAt(s, thread, Do(s, Advance(thread)).pc[thread]);
  }

  // A goroutine that moves on without sending or dropping keeps its standing.
  lemma PendingAt<T>(s: State<T>, thread: nat, pc: Pc<T>)
    requires AllPending(s)
    requires HasItem(pc) ==>
      HasItem(At(s, thread)) && !At(s, thread).Retry? && !pc.Retry? && pc.item == At(s, thread).item
    ensures Pending(pc, s.accepted, s.taken, s.calls)
  {
  }

  lemma StepKeeps<T(!new)>(s: State<T>, step: Step<T>)
    requires Invariant(s) && Enabled(s, step)
    ensures Invariant(Do(s, step))
  {
    match step
    case Receive => ReceiveKeeps(s);
    case Call(thread, message) => CallKeeps(s, thread, message);
    case CallDrop(thread) => CallDropKeeps(s, thread);
    case Advance(thread) =>
      var pc := At(s, thread);
      if pc.Retry? || (pc.TrySend? && |s.queue| < s.capacity) {
        SendKeeps(s, thread);
      } else if pc.DropOldest? {
        DropKeeps(s, thread);
      } else if pc.TrySend? || pc.CheckClosed? {
        CheckKeeps(s, thread);
      } else if pc.Unlock? {
        UnlockKeeps(s, thread);
      } else if pc.CheckBeforeClose? || pc.CloseChannel? {
        CloseKeeps(s, thread);
      } else {
        LockKeeps(s, thread);
      }
  }

  lemma {:induction false} RunKeeps<T(!new)>(s: State<T>, steps: seq<Step<T>>)
    requires Invariant(s) && IsRun(s, steps)
    ensures Invariant(After(s, steps))
    decreases steps
  {
    if steps != [] {
      StepKeeps(s, steps[0]);
      RunKeeps(Do(s, steps[0]), steps[1..]);
    }
  }

  /**
   Every interleaving of any number of callbacks, drops and receives: messages leave in
   acceptance order and none is lost or duplicated, the queue stays within its capacity, a
   callback drops at most one message, its second send finds room, and neither a send nor a
   close meets a closed channel.
   */
  lemma EveryInterleavingIsSafe<T(!new)>(capacity: nat, steps: seq<Step<T>>)
    requires capacity > 0 && IsRun(Initial(capacity), steps)
    ensures var s := After(Initial(capacity), steps);
            && InOrder(s.accepted, s.taken, s.queue) && AcceptedOnce(s.accepted) && Bounded(s)
            && DropsAtMostOnce(s.taken) && RetryHasRoom(s) && NoUseAfterClose(s)
  {
    InitialIsSafe<T>(capacity);
    RunKeeps(Initial(capacity), steps);
  }

  // Once the channel is closed nothing more is accepted, however the run goes on.
  lemma {:induction false} NothingAcceptedAfterClose<T(!new)>(s: State<T>, steps: seq<Step<T>>)
    requires Invariant(s) && s.channelClosed && IsRun(s, steps)
    ensures After(s, steps).channelClosed && After(s, steps).accepted == s.accepted
    decreases steps
  {
    if steps != [] {
      StepKeeps(s, steps[0]);
      NothingAcceptedAfterClose(Do(s, steps[0]), steps[1..]);
    }
  }

  // A dropped message is the oldest one queued: everything accepted later is behind it.
  lemma DropTakesTheOldest<T(!new)>(s: State<T>, thread: nat)
    requires Invariant(s) && Enabled(s, Advance(thread)) && At(s, thread).DropOldest?
    ensures var s' := Do(s, Advance(thread));
            var k := |s.taken|;
            && s'.taken == s.taken + [Dropped(s.accepted[k], At(s, thread).item.call)]
            && s'.queue == s.accepted[k + 1..]
  {
    assert s.accepted[|s.taken|..] == s.queue;
    assert s.accepted[|s.taken| + 1..] == s.queue[1..];
  }

  // ----- no message disappears ---------------------------------------------------------------

  // How often a call occurs in a history.
  function Count<T>(items: seq<Item<T>>, call: nat): nat {
    if items == [] then 0
    else Count(items[..|items| - 1], call) + if items[|items| - 1].call == call then 1 else 0
  }

  predicate HeldBy<T>(s: State<T>, thread: nat, call: nat) {
    HasItem(At(s, thread)) && At(s, thread).item.call == call
  }

  function Holders<T>(s: State<T>, call: nat): set<nat> {
    set t <- s.pc.Keys | HeldBy(s, t, call)
  }

  // A message is accepted, turned away, or on its way in a callback; this counts all of them.
  function Fates<T>(s: State<T>, call: nat): nat {
    Count(s.accepted, call) + Count(s.refused, call) + |Holders(s, call)|
  }

  // The messages handed to callbacks, by call number.
  function Delivered<T>(steps: seq<Step<T>>): seq<T> {
    if steps == [] then []
    else (if steps[0].Call? then [steps[0].message] else []) + Delivered(steps[1..])
  }

  // An item carries the message its call was made with.
  predicate IsGenuine<T(==)>(item: Item<T>, delivered: seq<T>) {
    item.call < |delivered| && item.message == delivered[item.call]
  }

  predicate AllGenuine<T(==)>(s: State<T>, delivered: seq<T>) {
    && (forall i | 0 <= i < |s.accepted| :: IsGenuine(s.accepted[i], delivered))
    && (forall i | 0 <= i < |s.refused| :: IsGenuine(s.refused[i], delivered))
    && forall t <- s.pc :: HasItem(s.pc[t]) ==> IsGenuine(s.pc[t].item, delivered)
  }

  ghost predicate Accounted<T>(s: State<T>, delivered: seq<T>) {
    && s.calls == |delivered| && AllGenuine(s, delivered)
    && (s.refused != [] ==> s.closed)
    && (forall call: nat :: Fates(s, call) == if call < s.calls then 1 else 0)
  }

  lemma CountMore<T>(items: seq<Item<T>>, item: Item<T>, call: nat)
    ensures Count(items + [item], call) == Count(items, call) + if item.call == call then 1 else 0
  {
    assert (items + [item])[..|items|] == items;
  }

  lemma IsHolder<T>(s: State<T>, call: nat)
    ensures forall t :: t in Holders(s, call) <==> HeldBy(s, t, call)
  {
  }

  lemma OneMoved(a: set<nat>, b: set<nat>, t: nat)
    requires forall u :: u != t ==> (u in a <==> u in b)
    ensures |b| + (if t in a then 1 else 0) == |a| + if t in b then 1 else 0
  {
    var others := a - {t};
    assert a == others + if t in a then {t} else {};
    assert b == others + if t in b then {t} else {};
  }

  // A goroutine that moves on holds what its new place says, and the others what they held.
  lemma HoldersMove<T>(s: State<T>, thread: nat, pc: Pc<T>, call: nat)
    ensures var after := Goto(s, thread, pc);
      |Holders(after, call)| + (if HeldBy(s, thread, call) then 1 else 0)
      == |Holders(s, call)| + if HeldBy(after, thread, call) then 1 else 0
  {
    var after := Goto(s, thread, pc);
    OthersHold(s, thread, pc, call);
    IsHolder(s, call);
    IsHolder(after, call);
    hide Goto, HeldBy, Holders;
    OneMoved(Holders(s, call), Holders(after, call), thread);
  }

  lemma OthersHold<T>(s: State<T>, thread: nat, pc: Pc<T>, call: nat)
    ensures forall t :: t != thread ==> (HeldBy(Goto(s, thread, pc), t, call) <==> HeldBy(s, t, call))
  {
  }

  lemma SameHolders<T>(a: State<T>, b: State<T>, call: nat)
    requires a.pc == b.pc
    ensures Holders(a, call) == Holders(b, call)
    ensures forall t :: HeldBy(a, t, call) <==> HeldBy(b, t, call)
  {
  }

  // What a step does to the items: one may move from a callback into a history.
  lemma StepItems<T>(s: State<T>, step: Step<T>)
    requires Enabled(s, step)
    ensures var s' := Do(s, step);
      match step
      case Receive => s'.pc == s.pc && s'.accepted == s.accepted && s'.refused == s.refused && s'.calls == s.calls
      case CallDrop(t) =>
        s'.pc == Goto(s, t, At(s', t)).pc && !HasItem(At(s', t)) && !HasItem(At(s, t))
        && s'.accepted == s.accepted && s'.refused == s.refused && s'.calls == s.calls
      case Call(t, message) =>
        s'.pc == Goto(s, t, At(s', t)).pc && HasItem(At(s', t)) && At(s', t).item == Item(s.calls, message)
        && !HasItem(At(s, t)) && s'.accepted == s.accepted && s'.refused == s.refused && s'.calls == s.calls + 1
      case Advance(t) =>
        && s'.pc == Goto(s, t, At(s', t)).pc && s'.calls == s.calls
        && (HasItem(At(s', t)) ==> HasItem(At(s, t)) && At(s', t).item == At(s, t).item)
        && if HasItem(At(s, t)) && !HasItem(At(s', t))
           then (s'.accepted == s.accepted + [At(s, t).item] && s'.refused == s.refused)
             || (s'.refused == s.refused + [At(s, t).item] && s'.accepted == s.accepted)
           else s'.accepted == s.accepted && s'.refused == s.refused
  {
  }

  // Every step keeps each message's one fate; a call gives its own message one.
  lemma FateKeeps<T>(s: State<T>, step: Step<T>, call: nat)
    requires Enabled(s, step)
    ensures Fates(Do(s, step), call) == Fates(s, call) + if step.Call? && call == s.calls then 1 else 0
  {
    hide Holders, Count, Do, Enabled, Goto, At;
    var s' := Do(s, step);
    StepItems(s, step);
    if step.Receive? {
      SameHolders(s, s', call);
    } else {
      var t := step.thread;
      HoldersMove(s, t, At(s', t), call);
      SameHolders(Goto(s, t, At(s', t)), s', call);
      if step.Advance? && HasItem(At(s, t)) {
        CountMore(s.accepted, At(s, t).item, call);
        CountMore(s.refused, At(s, t).item, call);
      }
    }
  }

  lemma GenuineKeeps<T>(s: State<T>, step: Step<T>, delivered: seq<T>)
    requires Enabled(s, step) && s.calls == |delivered| && AllGenuine(s, delivered)
    ensures AllGenuine(Do(s, step), delivered + if step.Call? then [step.message] else [])
  {
    StepItems(s, step);
    hide Do, Enabled;
    var s', more := Do(s, step), delivered + if step.Call? then [step.message] else [];
    assert forall item: Item<T> :: IsGenuine(item, delivered) ==> IsGenuine(item, more);
    forall t | t in s'.pc && HasItem(s'.pc[t]) ensures IsGenuine(s'.pc[t].item, more) {
    }
  }

  lemma AccountStep<T(!new)>(s: State<T>, step: Step<T>, delivered: seq<T>)
    requires Accounted(s, delivered) && Enabled(s, step)
    ensures Accounted(Do(s, step), delivered + if step.Call? then [step.message] else [])
  {
    var s' := Do(s, step);
    RefusedOnlyWhenClosed(s, step);
    StepItems(s, step);
    GenuineKeeps(s, step, delivered);
    hide AllGenuine, Fates, Do, Enabled;
    forall call: nat ensures Fates(s', call) == if call < s'.calls then 1 else 0 {
      FateKeeps(s, step, call);
    }
  }

  lemma RefusedOnlyWhenClosed<T>(s: State<T>, step: Step<T>)
    requires Enabled(s, step) && (s.refused != [] ==> s.closed)
    ensures Do(s, step).refused != [] ==> Do(s, step).closed
  {
  }

  lemma Regroup<T>(a: seq<T>, b: seq<T>, c: seq<T>)
    ensures a + (b + c) == (a + b) + c
  {
  }

  lemma {:induction false} AccountingKeeps<T(!new)>(s: State<T>, steps: seq<Step<T>>, delivered: seq<T>)
    requires Accounted(s, delivered) && IsRun(s, steps)
    ensures Accounted(After(s, steps), delivered + Delivered(steps))
    decreases steps
  {
    hide Accounted, Do, Enabled;
    if steps == [] {
      assert delivered + [] == delivered;
    } else {
      var more := delivered + if steps[0].Call? then [steps[0].message] else [];
      AccountStep(s, steps[0], delivered);
      AccountingKeeps(Do(s, steps[0]), steps[1..], more);
      Regroup(delivered, if steps[0].Call? then [steps[0].message] else [], Delivered(steps[1..]));
    }
  }

  /**
   No message disappears and none is doubled: in every reachable state each callback's
   message has exactly one fate. It was accepted, a running callback holds it, or a closed
   channel turned it away, and wherever it is found it is the message of that call.
   */
  lemma EveryMessageIsAccountedFor<T(!new)>(capacity: nat, steps: seq<Step<T>>)
    requires IsRun(Initial(capacity), steps)
    ensures Accounted(After(Initial(capacity), steps), Delivered(steps))
  {
    AccountingKeeps(Initial(capacity), steps, []);
    assert [] + Delivered(steps) == Delivered(steps);
  }
}
