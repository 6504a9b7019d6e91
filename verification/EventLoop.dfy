/** muduo's event loop and its wakeup protocol, as a step relation.

    One loop thread polls, handles events and runs the queued functors; any number
    of other threads queue functors and write the eventfd.  Every step is one action
    of one thread, so runs are all interleavings.  The kernel's choices (when poll
    returns and what it reports) and the functors' own behaviour are free. */
module EventLoop {

  /** Where the loop thread is. */
  datatype Place =
    | Before                                  // loop() has not been entered
    | Polling                                 // blocked, or about to block, in poll
    | Handling(wakeupReady: bool)             // handling the events poll reported
    | Swapping                                // callingPendingFunctors_ is set, the queue is not yet swapped
    | Running(batch: seq<nat>)                // running the swapped functors

  /** owed: other threads that have pushed but not yet written the eventfd.
      selfOwed: the loop thread itself is between push and wakeup in queueInLoop.
      pushed, ran: all functors ever queued and run, in order.
      rounds: how often poll has returned.
      early, foreign: a functor was queued before the first poll returned by the loop's own thread, or by another. */
  datatype Loop = Loop(
    place: Place,
    pending: seq<nat>,
    eventfd: nat,
    owed: nat,
    selfOwed: bool,
    pushed: seq<nat>,
    ran: seq<nat>,
    rounds: nat,
    early: bool,
    foreign: bool)
  {
    /** callingPendingFunctors_ */
    predicate Calling() { place.Swapping? || place.Running? }
  }

  const EVENTFD_MAX: nat := 0xFFFF_FFFF_FFFF_FFFE

  datatype Step =
    | ForeignPush(f: nat)       // queueInLoop in another thread: the locked push
    | ForeignWakeup             // ... and the write that follows it
    | QuitWakeup                // quit() from another thread
    | OwnPush(f: nat)           // queueInLoop in the loop thread
    | OwnWakeup                 // ... and its write, only while functors are being called
    | Enter                     // loop() starts
    | PollReturns(wakeupReady: bool)
    | ReadEventfd
    | BeginFunctors
    | Swap
    | RunNext
    | EndFunctors

  ghost predicate Enabled(s: Loop, step: Step) {
    match step
    case ForeignPush(_) => true
    case ForeignWakeup => s.owed > 0
    case QuitWakeup => true
    case OwnPush(_) => !s.selfOwed && (s.place.Before? || s.place.Handling? || s.place.Running?)
    case OwnWakeup => s.selfOwed
    case Enter => s.place.Before?
    case PollReturns(ready) => s.place.Polling? && (ready ==> s.eventfd > 0)
    case ReadEventfd => s.place.Handling? && s.place.wakeupReady
    case BeginFunctors => s.place.Handling? && !s.place.wakeupReady
    case Swap => s.place.Swapping?
    case RunNext => s.place.Running? && s.place.batch != [] && !s.selfOwed
    case EndFunctors => s.place.Running? && s.place.batch == [] && !s.selfOwed
  }

  /** write(2) on the eventfd: the counter saturates (the write then fails and the counter stays). */
  function Written(n: nat): nat { if n < EVENTFD_MAX then n + 1 else n }

  function Do(s: Loop, step: Step): Loop {
    match step
    case ForeignPush(f) =>
      s.(pending := s.pending + [f], pushed := s.pushed + [f], owed := s.owed + 1,
         foreign := s.foreign || s.rounds == 0)
    case ForeignWakeup => s.(owed := if s.owed > 0 then s.owed - 1 else 0, eventfd := Written(s.eventfd))
    case QuitWakeup => s.(eventfd := Written(s.eventfd), foreign := s.foreign || s.rounds == 0)
    case OwnPush(f) =>
      s.(pending := s.pending + [f], pushed := s.pushed + [f], selfOwed := s.Calling(),
         early := s.early || s.rounds == 0)
    case OwnWakeup => s.(selfOwed := false, eventfd := Written(s.eventfd))
    case Enter => s.(place := Polling)
    case PollReturns(ready) => s.(place := Handling(ready), rounds := s.rounds + 1)
    case ReadEventfd => s.(place := Handling(false), eventfd := 0)
    case BeginFunctors => s.(place := Swapping)
    case Swap => s.(place := Running(s.pending), pending := [])
    case RunNext =>
      if s.place.Running? && s.place.batch != [] then
        s.(place := Running(s.place.batch[1..]), ran := s.ran + [s.place.batch[0]])
      else s
    case EndFunctors => s.(place := Polling)
  }

  const INIT := Loop(Before, [], 0, 0, false, [], [], 0, false, false)

  /** The steps can be taken one after the other from s. */
  ghost predicate Runs(s: Loop, steps: seq<Step>)
    decreases |steps|
  {
    steps == [] || (Enabled(s, steps[0]) && Runs(Do(s, steps[0]), steps[1..]))
  }

  function After(s: Loop, steps: seq<Step>): Loop
    decreases |steps|
  {
    if steps == [] then s else After(Do(s, steps[0]), steps[1..])
  }

  // ---------------------------------------------------------------- no lost wakeup

  /** Something will make poll return: the counter is positive, or a thread is about to make it so. */
  predicate WakeupComing(s: Loop) { s.eventfd > 0 || s.owed > 0 || s.selfOwed }

  /** The loop may block only if nothing is pending or a wakeup is coming. */
  predicate NoLostWakeup(s: Loop) { s.place.Polling? && s.pending != [] ==> s.eventfd > 0 || s.owed > 0 }

  function InFlight(p: Place): seq<nat> { if p.Running? then p.batch else [] }

  /** Every queued functor is run, in the batch being run, or pending, in that order. */
  ghost predicate Ordered(s: Loop) { s.pushed == s.ran + InFlight(s.place) + s.pending }

  ghost predicate Announced(s: Loop) {
    // once poll has returned, functors queued after the swap come with a wakeup
    && (s.rounds > 0 && (s.place.Polling? || s.place.Running?) && s.pending != [] ==> WakeupComing(s))
    // before that, a functor is pending only because someone queued it
    && (s.rounds == 0 ==> s.place.Before? || s.place.Polling?)
    && (s.rounds == 0 && s.pending != [] ==> s.early || s.foreign)
    && (s.rounds == 0 ==> (s.foreign <==> WakeupComing(s)))
    && (s.rounds == 0 && s.early ==> s.pending != [])
    && (s.selfOwed ==> s.place.Running?)
    && (s.place.Before? ==> s.rounds == 0)
  }

  ghost predicate Inv(s: Loop) { Ordered(s) && Announced(s) }

  lemma InitHolds()
    ensures Inv(INIT)
  {
  }

  lemma PushOrdered(s: Loop, f: nat, s': Loop)
    requires Ordered(s) && s'.place == s.place && s'.ran == s.ran
    requires s'.pending == s.pending + [f] && s'.pushed == s.pushed + [f]
    ensures Ordered(s')
  {
    assert s.ran + InFlight(s.place) + s.pending + [f] == s.ran + InFlight(s.place) + (s.pending + [f]);
  }

  lemma SwapOrdered(s: Loop)
    requires Ordered(s) && s.place.Swapping?
    ensures Ordered(Do(s, Swap))
  {
    assert s.ran + [] + s.pending == s.ran + s.pending + [];
  }

  lemma RunOrdered(s: Loop)
    requires Ordered(s) && s.place.Running? && s.place.batch != []
    ensures Ordered(Do(s, RunNext))
  {
    var b := s.place.batch;
    assert s.ran + b == s.ran + [b[0]] + b[1..];
  }

  lemma StepOrdered(s: Loop, step: Step)
    requires Ordered(s) && Enabled(s, step)
    ensures Ordered(Do(s, step))
  {
    match step
    case ForeignPush(f) => PushOrdered(s, f, Do(s, step));
    case OwnPush(f) => PushOrdered(s, f, Do(s, step));
    case Swap => SwapOrdered(s);
    case RunNext => RunOrdered(s);
    case _ =>
  }

  lemma StepAnnounced(s: Loop, step: Step)
    requires Announced(s) && Enabled(s, step)
    ensures Announced(Do(s, step))
  {
  }

  /** Every step of every thread keeps the invariant. */
  lemma StepKeeps(s: Loop, step: Step)
    requires Inv(s) && Enabled(s, step)
    ensures Inv(Do(s, step))
  {
    StepOrdered(s, step);
    StepAnnounced(s, step);
  }

  lemma {:induction false} RunKeeps(s: Loop, steps: seq<Step>)
    requires Inv(s) && Runs(s, steps)
    ensures Inv(After(s, steps))
    decreases |steps|
  {
    if steps != [] {
      StepKeeps(s, steps[0]);
      RunKeeps(Do(s, steps[0]), steps[1..]);
    }
  }

  /** In every interleaving, after the first return of poll the loop never blocks on pending functors without a
      wakeup coming; at the first poll it does so exactly when the loop's own thread queued functors before
      loop() and no other thread has called queueInLoop or quit since. */
  lemma NoLostWakeups(steps: seq<Step>)
    requires Runs(INIT, steps)
    ensures var s := After(INIT, steps);
      if s.rounds > 0 then NoLostWakeup(s)
      else s.place.Polling? ==> (NoLostWakeup(s) <==> !s.early || s.foreign)
  {
    InitHolds();
    RunKeeps(INIT, steps);
  }

  /** Each queued functor runs at most once and in queue order, whatever the interleaving. */
  lemma RunInOrder(steps: seq<Step>)
    requires Runs(INIT, steps)
    ensures After(INIT, steps).ran <= After(INIT, steps).pushed
    ensures var s := After(INIT, steps); s.place.Polling? && s.pending == [] ==> s.ran == s.pushed
  {
    InitHolds();
    RunKeeps(INIT, steps);
  }

  /** The steps that write the eventfd. */
  predicate Writes(step: Step) { step.ForeignWakeup? || step.QuitWakeup? || step.OwnWakeup? }

  /** Once the eventfd has been read, poll reports it again only after another write. */
  lemma {:induction false} ReportedOnlyIfWritten(s: Loop, steps: seq<Step>)
    requires s.eventfd == 0 && Runs(s, steps) && forall step :: step in steps ==> !Writes(step)
    ensures After(s, steps).eventfd == 0 && PollReturns(true) !in steps
    decreases |steps|
  {
    if steps != [] {
      assert steps[0] in steps && forall step :: step in steps <==> step == steps[0] || step in steps[1..];
      ReportedOnlyIfWritten(Do(s, steps[0]), steps[1..]);
    }
  }

  lemma ReadIsQuiet(s: Loop, steps: seq<Step>)
    requires Enabled(s, ReadEventfd) && Runs(Do(s, ReadEventfd), steps)
    requires forall step :: step in steps ==> !Writes(step)
    ensures PollReturns(true) !in steps
  {
    ReportedOnlyIfWritten(Do(s, ReadEventfd), steps);
  }

  function CountRuns(steps: seq<Step>): nat {
    if steps == [] then 0 else (if steps[0].RunNext? then 1 else 0) + CountRuns(steps[1..])
  }

  /** The loop runs one functor at a time, so that anything may happen between two of them. */
  lemma {:induction false} OneAtATime(s: Loop, steps: seq<Step>)
    requires Runs(s, steps)
    ensures |After(s, steps).ran| == |s.ran| + CountRuns(steps)
    decreases |steps|
  {
    if steps != [] { OneAtATime(Do(s, steps[0]), steps[1..]); }
  }

  /** A functor queued by the owner thread before loop() is left behind a blocking poll. */
  lemma EarlyFunctorWaits()
    ensures Runs(INIT, [OwnPush(7), Enter]) && !NoLostWakeup(After(INIT, [OwnPush(7), Enter]))
  {
    var s1 := Do(INIT, OwnPush(7));
    var s2 := Do(s1, Enter);
    assert [OwnPush(7), Enter][1..] == [Enter] && [Enter][1..] == [];
    assert Runs(s2, []) && Runs(s1, [Enter]);
    assert After(s1, [Enter]) == After(s2, []) == s2;
  }
}
