/**
 What the ring channel does beyond staying safe: it drops only when it must, keeps the newest
 messages, closes when it is told to, and gets stuck in exactly one way.
 */
module RingProgress {
  import opened RingChannel

  // Where the goroutine is that holds the mutex.
  function Holding<T>(s: State<T>): Pc<T> {
    if s.holder.Some? then At(s, s.holder.value) else Idle
  }

  // Exactly the holder is between Lock and Unlock.
  lemma InsideIsHolding<T(!new)>(s: State<T>, thread: nat)
    requires Invariant(s)
    ensures InSection(At(s, thread)) <==> s.holder == Some(thread)
  {
    hide InOrder, AcceptedOnce, DropsAtMostOnce, CallsAreOld, AllPending, OwnCalls, ClosedFlag, NoUseAfterClose;
  }

  // ----- drops ------------------------------------------------------------------------

  function Drops<T>(taken: seq<Taken<T>>): nat {
    if taken == [] then 0
    else Drops(taken[..|taken| - 1]) + if taken[|taken| - 1].Dropped? then 1 else 0
  }

  lemma OneMoreTaken<T>(taken: seq<Taken<T>>, last: Taken<T>)
    ensures Drops(taken + [last]) == Drops(taken) + if last.Dropped? then 1 else 0
  {
    assert (taken + [last])[..|taken|] == taken;
  }

  // For every drop there was a full queue and a message that did not fit in it.
  predicate DropsAreNeeded<T>(s: State<T>) {
    var drops := Drops(s.taken);
    && (drops > 0 ==> s.capacity + drops <= |s.accepted| + if Holding(s).Retry? then 1 else 0)
    && (Holding(s).DropOldest? ==> s.capacity + drops <= |s.accepted|)
  }

  lemma {:induction false} DropsFit<T>(taken: seq<Taken<T>>)
    ensures Drops(taken) <= |taken|
  {
    if taken != [] {
      DropsFit(taken[..|taken| - 1]);
    }
  }

  lemma NeedKeeps<T(!new)>(s: State<T>, step: Step<T>)
    requires Invariant(s) && Enabled(s, step) && DropsAreNeeded(s)
    ensures DropsAreNeeded(Do(s, step))
  {
    hide Drops, AcceptedOnce, DropsAtMostOnce, CallsAreOld, AllPending, OwnCalls, ClosedFlag, NoUseAfterClose;
    DropsFit(s.taken);
    StepKeeps(s, step);
    match step
    case Receive => OneMoreTaken(s.taken, Received(s.queue[0]));
    case Call(thread, _) =>
    case CallDrop(thread) =>
    case Advance(thread) =>
      if At(s, thread).DropOldest? {
        OneMoreTaken(s.taken, Dropped(s.queue[0], At(s, thread).item.call));
      }
  }

  lemma {:induction false} NeedKeepsOn<T(!new)>(s: State<T>, steps: seq<Step<T>>)
    requires Invariant(s) && DropsAreNeeded(s) && IsRun(s, steps)
    ensures DropsAreNeeded(After(s, steps))
    decreases steps
  {
    hide DropsAreNeeded, Do, Enabled, Invariant;
    if steps != [] {
      NeedKeeps(s, steps[0]);
      StepKeeps(s, steps[0]);
      NeedKeepsOn(Do(s, steps[0]), steps[1..]);
    }
  }

  lemma {:induction false} DistinctBelow(xs: seq<nat>, n: nat)
    requires forall i | 0 <= i < |xs| :: xs[i] < n
    requires forall i, j | 0 <= i < j < |xs| :: xs[i] != xs[j]
    ensures |xs| <= n
  {
    var below, some := Below(n), Elements(xs);
    Distinct(xs);
    assert some <= below;
    Subset(some, below);
  }

  function Below(n: nat): (r: set<nat>)
    ensures |r| == n && forall k: nat :: k in r <==> k < n
  {
    if n == 0 then {} else Below(n - 1) + {n - 1}
  }

  function Elements(xs: seq<nat>): set<nat> {
    set x | x in xs
  }

  lemma {:induction false} Distinct(xs: seq<nat>)
    requires forall i, j | 0 <= i < j < |xs| :: xs[i] != xs[j]
    ensures |Elements(xs)| == |xs|
  {
    if xs != [] {
      var last := |xs| - 1;
      Distinct(xs[..last]);
      assert Elements(xs) == Elements(xs[..last]) + {xs[last]};
    }
  }

  lemma Subset(a: set<nat>, b: set<nat>)
    requires a <= b
    ensures |a| <= |b|
  {
    assert b == a + (b - a);
  }

  // Accepted messages and the one at its retry belong to different calls.
  lemma AcceptedFitsCalls<T(!new)>(s: State<T>)
    requires Invariant(s)
    ensures |s.accepted| + (if Holding(s).Retry? then 1 else 0) <= s.calls
  {
    var accepted := seq(|s.accepted|, i requires 0 <= i < |s.accepted| => s.accepted[i].call);
    if Holding(s).Retry? {
      DistinctBelow(accepted + [Holding(s).item.call], s.calls);
    } else {
      DistinctBelow(accepted, s.calls);
    }
  }

  /**
   Over all runs, with any number of receives in between: k drops take at least k calls more
   than the queue has room for. A run of at most `capacity` calls drops nothing.
   */
  lemma DropsNeedAFullQueue<T(!new)>(capacity: nat, steps: seq<Step<T>>)
    requires capacity > 0 && IsRun(Initial(capacity), steps)
    ensures var s := After(Initial(capacity), steps);
      && (Drops(s.taken) > 0 ==> capacity + Drops(s.taken) <= |Delivered(steps)|)
      && (|Delivered(steps)| <= capacity ==> forall i | 0 <= i < |s.taken| :: s.taken[i].Received?)
  {
    InitialIsSafe<T>(capacity);
    RunKeeps(Initial(capacity), steps);
    NeedKeepsOn(Initial(capacity), steps);
    EveryMessageIsAccountedFor(capacity, steps);
    var s := After(Initial(capacity), steps);
    AcceptedFitsCalls(s);
    CapacityStays(Initial<T>(capacity), steps);
    NoDropsNoDropped(s.taken);
  }

  lemma {:induction false} CapacityStays<T>(s: State<T>, steps: seq<Step<T>>)
    requires IsRun(s, steps)
    ensures After(s, steps).capacity == s.capacity
    decreases steps
  {
    if steps != [] {
      CapacityStays(Do(s, steps[0]), steps[1..]);
    }
  }

  lemma {:induction false} NoDropsNoDropped<T>(taken: seq<Taken<T>>)
    ensures Drops(taken) == 0 ==> forall i | 0 <= i < |taken| :: taken[i].Received?
  {
    if taken != [] {
      NoDropsNoDropped(taken[..|taken| - 1]);
    }
  }

  // ----- without a consumer ---------------------------------------------------------------

  predicate NoReceives<T>(steps: seq<Step<T>>) {
    forall i | 0 <= i < |steps| :: !steps[i].Receive?
  }

  // The queue is as full as it can be, but for the place a drop has just made.
  predicate IsFilled<T>(s: State<T>) {
    if Holding(s).Retry? then |s.queue| + 1 == s.capacity <= |s.accepted|
    else
      && |s.queue| == (if |s.accepted| < s.capacity then |s.accepted| else s.capacity)
      && (Holding(s).DropOldest? ==> |s.queue| == s.capacity)
  }

  lemma FillKeeps<T(!new)>(s: State<T>, step: Step<T>)
    requires Invariant(s) && Enabled(s, step) && IsFilled(s) && !step.Receive?
    ensures IsFilled(Do(s, step))
  {
    HasRoom(s);
    InsideIsHolding(s, step.thread);
    hide Invariant;
  }

  lemma {:induction false} FillKeepsOn<T(!new)>(s: State<T>, steps: seq<Step<T>>)
    requires Invariant(s) && IsFilled(s) && IsRun(s, steps) && NoReceives(steps)
    ensures IsFilled(After(s, steps))
    decreases steps
  {
    hide IsFilled, Do, Enabled, Invariant;
    if steps != [] {
      FillKeeps(s, steps[0]);
      StepKeeps(s, steps[0]);
      FillKeepsOn(Do(s, steps[0]), steps[1..]);
    }
  }

  /**
   Without a consumer the queue holds exactly the newest accepted messages, as many as there
   are or fit, whenever no callback is between its drop and its second send.
   */
  lemma TheNewestStay<T(!new)>(capacity: nat, steps: seq<Step<T>>)
    requires capacity > 0 && IsRun(Initial(capacity), steps) && NoReceives(steps)
    ensures var s := After(Initial(capacity), steps);
      var n := if |s.accepted| < capacity then |s.accepted| else capacity;
      (forall t <- s.pc :: !s.pc[t].Retry?) ==> s.queue == s.accepted[|s.accepted| - n..]
  {
    InitialIsSafe<T>(capacity);
    RunKeeps(Initial(capacity), steps);
    FillKeepsOn(Initial(capacity), steps);
    CapacityStays(Initial<T>(capacity), steps);
    var s := After(Initial(capacity), steps);
    assert s.accepted[|s.taken|..] == s.queue;
  }

  // ----- a callback by itself -----------------------------------------------------------------

  predicate AllAdvance<T>(steps: seq<Step<T>>, thread: nat) {
    forall i | 0 <= i < |steps| :: steps[i] == Advance(thread)
  }

  lemma OneStep<T>(s: State<T>, step: Step<T>, rest: seq<Step<T>>)
    requires Enabled(s, step) && IsRun(Do(s, step), rest)
    ensures IsRun(s, [step] + rest) && After(s, [step] + rest) == After(Do(s, step), rest)
  {
    assert ([step] + rest)[1..] == rest;
  }

  lemma NoStep<T>(s: State<T>)
    ensures IsRun(s, []) && After(s, []) == s
  {
  }

  // From its place in the section a goroutine can go on alone: one of its steps and the rest.
  lemma GoOn<T>(s: State<T>, thread: nat, rest: seq<Step<T>>) returns (steps: seq<Step<T>>)
    requires Enabled(s, Advance(thread)) && IsRun(Do(s, Advance(thread)), rest) && AllAdvance(rest, thread)
    ensures IsRun(s, steps) && After(s, steps) == After(Do(s, Advance(thread)), rest) && AllAdvance(steps, thread)
  {
    hide Do, Enabled;
    OneStep(s, Advance(thread), rest);
    steps := [Advance(thread)] + rest;
  }

  lemma Leave<T>(s: State<T>, thread: nat) returns (steps: seq<Step<T>>)
    requires At(s, thread).Unlock?
    ensures IsRun(s, steps) && After(s, steps) == Goto(s, thread, Idle).(holder := None) && AllAdvance(steps, thread)
  {
    NoStep(Do(s, Advance(thread)));
    steps := GoOn(s, thread, []);
  }

  // What a callback does when nobody interferes: the newest message is in, the oldest gives way.
  function Delivery<T>(s: State<T>, thread: nat, item: Item<T>): State<T>
    requires s.capacity > 0 || |s.queue| > 0
  {
    var done := s.(pc := s.pc[thread := Idle], holder := None);
    if s.closed then done.(refused := s.refused + [item])
    else if |s.queue| < s.capacity then done.(queue := s.queue + [item], accepted := s.accepted + [item])
    else
      done.(queue := s.queue[1..] + [item], accepted := s.accepted + [item],
            taken := s.taken + [Dropped(s.queue[0], item.call)])
  }

  // From the select on: the message goes last, after the oldest has left a full queue.
  lemma SendAlone<T>(s: State<T>, thread: nat) returns (steps: seq<Step<T>>)
    requires 0 < s.capacity && |s.queue| <= s.capacity && At(s, thread).TrySend? && !s.closed
    ensures IsRun(s, steps) && AllAdvance(steps, thread)
    ensures After(s, steps) == Delivery(s, thread, At(s, thread).item)
  {
    hide IsRun, After;
    if |s.queue| < s.capacity {
      var sent := Do(s, Advance(thread));
      steps := Leave(sent, thread);
      steps := GoOn(s, thread, steps);
      assert After(s, steps).pc == s.pc[thread := Idle];
    } else {
      var full := Do(s, Advance(thread));
      var dropped := Do(full, Advance(thread));
      var sent := Do(dropped, Advance(thread));
      steps := Leave(sent, thread);
      steps := GoOn(dropped, thread, steps);
      steps := GoOn(full, thread, steps);
      steps := GoOn(s, thread, steps);
      assert After(s, steps).pc == s.pc[thread := Idle];
    }
  }

  /**
   A callback that finds the mutex free and is left alone runs through: into an open queue its
   message goes last, after the oldest one has been taken out of a full queue; a closed channel
   turns it away.
   */
  lemma CallbackRunsThrough<T(!new)>(s: State<T>, thread: nat) returns (steps: seq<Step<T>>)
    requires Invariant(s) && s.holder.None? && At(s, thread).WantLock?
    ensures IsRun(s, steps) && AllAdvance(steps, thread)
    ensures After(s, steps) == Delivery(s, thread, At(s, thread).item)
  {
    HasRoom(s);
    hide IsRun, After, Invariant;
    var locked := Do(s, Advance(thread));
    var checked := Do(locked, Advance(thread));
    if s.closed {
      steps := Leave(checked, thread);
    } else {
      steps := SendAlone(checked, thread);
    }
    steps := GoOn(locked, thread, steps);
    steps := GoOn(s, thread, steps);
    assert After(s, steps).pc == s.pc[thread := Idle];
  }

  lemma HasRoom<T(!new)>(s: State<T>)
    requires Invariant(s)
    ensures 0 < s.capacity && |s.queue| <= s.capacity
  {
  }

  // The drop function by itself closes the channel, once.
  lemma DropRunsThrough<T(!new)>(s: State<T>, thread: nat) returns (steps: seq<Step<T>>)
    requires Invariant(s) && s.holder.None? && At(s, thread).WantLockToClose? && (s.closed ==> s.channelClosed)
    ensures IsRun(s, steps) && AllAdvance(steps, thread)
    ensures After(s, steps) ==
      s.(pc := s.pc[thread := Idle], holder := None, closed := true, channelClosed := true)
  {
    hide IsRun, After, Invariant;
    var locked := Do(s, Advance(thread));
    var checked := Do(locked, Advance(thread));
    if s.closed {
      steps := Leave(checked, thread);
    } else {
      var closed := Do(checked, Advance(thread));
      steps := Leave(closed, thread);
      steps := GoOn(checked, thread, steps);
    }
    steps := GoOn(locked, thread, steps);
    steps := GoOn(s, thread, steps);
    assert After(s, steps).pc == s.pc[thread := Idle];
  }

  // ----- closing --------------------------------------------------------------------------------

  // Between the flag and the close there is only the goroutine that does both.
  predicate ClosesSoon<T>(s: State<T>) {
    s.closed ==> s.channelClosed || Holding(s).CloseChannel?
  }

  // The channel is closed, or this goroutine is on its way to see to it.
  predicate WillClose<T>(s: State<T>, thread: nat) {
    s.channelClosed || At(s, thread).WantLockToClose? || At(s, thread).CheckBeforeClose? || At(s, thread).CloseChannel?
  }

  lemma ClosingKeeps<T(!new)>(s: State<T>, step: Step<T>)
    requires Invariant(s) && Enabled(s, step) && ClosesSoon(s)
    ensures ClosesSoon(Do(s, step))
    ensures forall t :: WillClose(s, t) ==> WillClose(Do(s, step), t)
  {
    hide InOrder, AcceptedOnce, DropsAtMostOnce, CallsAreOld, AllPending, OwnCalls, NoUseAfterClose, RetryHasRoom;
  }

  lemma {:induction false} ClosingKeepsOn<T(!new)>(s: State<T>, steps: seq<Step<T>>, thread: nat)
    requires Invariant(s) && ClosesSoon(s) && WillClose(s, thread) && IsRun(s, steps)
    ensures WillClose(After(s, steps), thread)
    decreases steps
  {
    hide ClosesSoon, WillClose, Do, Enabled, Invariant;
    if steps != [] {
      ClosingKeeps(s, steps[0]);
      StepKeeps(s, steps[0]);
      ClosingKeepsOn(Do(s, steps[0]), steps[1..], thread);
    }
  }

  lemma {:induction false} ClosesSoonKeepsOn<T(!new)>(s: State<T>, steps: seq<Step<T>>)
    requires Invariant(s) && ClosesSoon(s) && IsRun(s, steps)
    ensures ClosesSoon(After(s, steps))
    decreases steps
  {
    hide ClosesSoon, WillClose, Do, Enabled, Invariant;
    if steps != [] {
      ClosingKeeps(s, steps[0]);
      StepKeeps(s, steps[0]);
      ClosesSoonKeepsOn(Do(s, steps[0]), steps[1..]);
    }
  }

  /**
   When a call to drop has returned the channel is closed, whoever else was calling: over all
   runs up to the call and all runs after it.
   */
  lemma DropCloses<T(!new)>(capacity: nat, before: seq<Step<T>>, thread: nat, after: seq<Step<T>>)
    requires capacity > 0 && IsRun(Initial(capacity), before)
    requires var s := After(Initial(capacity), before);
      Enabled(s, CallDrop(thread)) && IsRun(Do(s, CallDrop(thread)), after)
    ensures var s := After(Do(After(Initial(capacity), before), CallDrop(thread)), after);
      At(s, thread).Idle? ==> s.channelClosed
  {
    InitialIsSafe<T>(capacity);
    RunKeeps(Initial(capacity), before);
    ClosesSoonKeepsOn(Initial(capacity), before);
    var s := After(Initial(capacity), before);
    StepKeeps(s, CallDrop(thread));
    ClosingKeeps(s, CallDrop(thread));
    ClosingKeepsOn(Do(s, CallDrop(thread)), after, thread);
  }

  // ----- getting stuck --------------------------------------------------------------------------

  // A callback wants to drop, and the consumers have emptied the queue in the meantime.
  predicate IsStranded<T>(s: State<T>, thread: nat) {
    s.holder == Some(thread) && At(s, thread).DropOldest? && s.queue == []
  }

  // The holder of the mutex can go on unless it is stranded.
  lemma HolderBlocksExactly<T(!new)>(s: State<T>, thread: nat)
    requires Invariant(s) && s.holder == Some(thread)
    ensures Enabled(s, Advance(thread)) <==> !IsStranded(s, thread)
  {
    hide InOrder, AcceptedOnce, DropsAtMostOnce, CallsAreOld, AllPending, OwnCalls, NoUseAfterClose, ClosedFlag;
  }

  lemma StrandedStep<T(!new)>(s: State<T>, step: Step<T>, thread: nat)
    requires Invariant(s) && IsStranded(s, thread) && Enabled(s, step)
    ensures IsStranded(Do(s, step), thread)
    ensures Do(s, step).accepted == s.accepted && Do(s, step).taken == s.taken && Do(s, step).closed == s.closed
  {
    hide InOrder, AcceptedOnce, DropsAtMostOnce, CallsAreOld, AllPending, OwnCalls, NoUseAfterClose, ClosedFlag;
  }

  /**
   A stranded callback never gets out, and nothing goes through the channel any more: every
   other callback, and the drop function, waits for the mutex, and a receive for a message.
   */
  lemma {:induction false} StrandedForever<T(!new)>(s: State<T>, steps: seq<Step<T>>, thread: nat)
    requires Invariant(s) && IsStranded(s, thread) && IsRun(s, steps)
    ensures var s' := After(s, steps);
      IsStranded(s', thread) && s'.accepted == s.accepted && s'.taken == s.taken && s'.closed == s.closed
    decreases steps
  {
    hide IsStranded, Do, Enabled, Invariant;
    if steps != [] {
      StrandedStep(s, steps[0], thread);
      StepKeeps(s, steps[0]);
      StrandedForever(Do(s, steps[0]), steps[1..], thread);
    }
  }

  lemma {:induction false} RunConcat<T>(s: State<T>, a: seq<Step<T>>, b: seq<Step<T>>)
    requires IsRun(s, a) && IsRun(After(s, a), b)
    ensures IsRun(s, a + b) && After(s, a + b) == After(After(s, a), b)
    decreases a
  {
    hide Do, Enabled;
    if a == [] {
      assert a + b == b;
    } else {
      RunConcat(Do(s, a[0]), a[1..], b);
      assert a + b == [a[0]] + (a[1..] + b);
      OneStep(s, a[0], a[1..] + b);
    }
  }

  // An open channel with n messages queued and nobody inside.
  predicate IsResting<T>(s: State<T>, capacity: nat, n: nat) {
    s.capacity == capacity && |s.queue| == n && s.holder.None? && !s.closed && At(s, 0).Idle?
  }

  lemma {:induction false} FillUp<T(!new)>(capacity: nat, n: nat, message: T) returns (steps: seq<Step<T>>)
    requires n <= capacity && capacity > 0
    ensures IsRun(Initial(capacity), steps) && IsResting(After(Initial(capacity), steps), capacity, n)
  {
    hide IsRun, After, Invariant;
    if n == 0 {
      steps := [];
      NoStep(Initial<T>(capacity));
    } else {
      steps := FillUp(capacity, n - 1, message);
      var s := After(Initial(capacity), steps);
      InitialIsSafe<T>(capacity);
      RunKeeps(Initial(capacity), steps);
      var call := Call(0, message);
      StepKeeps(s, call);
      var more := CallbackRunsThrough(Do(s, call), 0);
      OneStep(s, call, more);
      RunConcat(Initial(capacity), steps, [call] + more);
      steps := steps + ([call] + more);
    }
  }

  lemma {:induction false} TakeAll<T>(s: State<T>) returns (steps: seq<Step<T>>)
    ensures IsRun(s, steps) && After(s, steps).queue == []
    ensures After(s, steps).pc == s.pc && After(s, steps).holder == s.holder
    decreases |s.queue|
  {
    hide IsRun, After;
    if s.queue == [] {
      steps := [];
      NoStep(s);
    } else {
      steps := TakeAll(Do(s, Receive));
      OneStep(s, Receive, steps);
      steps := [Receive] + steps;
    }
  }

  /**
   For every capacity some run strands a callback: the queue is full, the callback has decided
   to drop, and the consumers take everything before it does.
   */
  lemma SomeRunStrands<T(!new)>(capacity: nat, message: T) returns (steps: seq<Step<T>>)
    requires capacity > 0
    ensures IsRun(Initial(capacity), steps) && IsStranded(After(Initial(capacity), steps), 0)
  {
    hide IsRun, After;
    steps := FillUp(capacity, capacity, message);
    var s := After(Initial(capacity), steps);
    var called := Do(s, Call(0, message));
    var locked := Do(called, Advance(0));
    var checked := Do(locked, Advance(0));
    var decided := Do(checked, Advance(0));
    var more := TakeAll(decided);
    OneStep(checked, Advance(0), more);
    OneStep(locked, Advance(0), [Advance(0)] + more);
    OneStep(called, Advance(0), [Advance(0)] + ([Advance(0)] + more));
    OneStep(s, Call(0, message), [Advance(0)] + ([Advance(0)] + ([Advance(0)] + more)));
    RunConcat(Initial(capacity), steps, [Call(0, message)] + ([Advance(0)] + ([Advance(0)] + ([Advance(0)] + more))));
    steps := steps + ([Call(0, message)] + ([Advance(0)] + ([Advance(0)] + ([Advance(0)] + more))));
  }
}
