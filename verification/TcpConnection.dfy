/** The byte stream of a muduo TcpConnection: sendInLoop, handleWrite, shutdown and handleClose.

    `Stream` is the connection's state with a history; each method of the class is
    proved to act on it as one step function.  Other threads test and store the state
    in two steps.  Over all runs, what the kernel was given followed by what is buffered
    is exactly what was sent. */
module TcpConnection {
  import opened ByteStrings
  import opened ConnectionPhase

  /** What write(2) did: wrote some bytes, could not write now (or failed in a way the code only logs), or failed with
      EPIPE or ECONNRESET. */
  datatype WriteResult = Wrote(n: nat) | Refused | Fault

  /** A shutdown or forceClose of another thread: it has tested the state, stored the new one, or queued its functor. */
  datatype Call = Tested(force: bool) | Stored(force: bool) | Queued(force: bool)

  /** given: bytes the kernel has accepted; sent: all messages of sendInLoop calls that did not fault;
      closed: handleClose has been called; halfClosed: shutdownWrite has been called on the live connection;
      cut: it was called while bytes were buffered; calls: what other threads have begun. */
  datatype Stream = Stream(
    phase: Phase,
    writing: bool,
    output: Bytes,
    given: Bytes,
    sent: Bytes,
    closed: bool,
    halfClosed: bool,
    cut: bool,
    calls: multiset<Call>)
  {
    /** In every run: nothing is lost or reordered; until handleClose, write interest is on exactly when bytes are
        buffered, and the write side has not been shut on buffered bytes. */
    ghost predicate Sound() {
      && given + output == sent
      && (writing ==> output != [])
      && (!closed ==> (writing <==> output != []) && !cut && phase != Disconnected)
      && (phase == Disconnected ==> !writing)
      && (phase == Connecting ==> output == [] && !closed && calls == multiset{})
    }

    /** In every run without a racing store: the state tells whether the connection has been closed. */
    ghost predicate Valid() {
      Sound() && (phase != Disconnected ==> (writing <==> output != []) && !cut) && (cut ==> output != [])
    }

    function ShutdownWrite(): Stream {
      this.(halfClosed := halfClosed || !closed, cut := cut || output != [])
    }

    /** sendInLoop(data), where the direct write, if there is one, does r */
    function Send(data: Bytes, r: WriteResult): Stream {
      if phase == Disconnected then this
      else if !writing && output == [] then
        match r
        case Fault => this
        case Refused => Buffered(data, 0).(sent := sent + data)
        case Wrote(n) => if n <= |data| then Buffered(data, n).(sent := sent + data) else this
      else Buffered(data, 0).(sent := sent + data)
    }

    /** The kernel took the first n bytes of data; the rest is buffered and write interest turned on. */
    function Buffered(data: Bytes, n: nat): Stream
      requires n <= |data|
    {
      this.(given := given + data[..n], output := output + data[n..], writing := writing || n < |data|)
    }

    /** shutdownInLoop */
    function ShutdownInLoop(): Stream { if writing then this else ShutdownWrite() }

    /** shutdown() called in the loop thread */
    function Shutdown(): Stream {
      if phase == Connected then this.(phase := Disconnecting).ShutdownInLoop() else this
    }

    /** handleWrite, where the write does r */
    function HandleWrite(r: WriteResult): Stream {
      if writing && r.Wrote? && 0 < r.n <= |output| then
        var s := this.(given := given + output[..r.n], output := output[r.n..]);
        if s.output == [] then
          var s1 := s.(writing := false);
          if phase == Disconnecting then s1.ShutdownInLoop() else s1
        else s
      else this
    }

    /** handleClose and forceCloseInLoop */
    function HandleClose(): Stream {
      if phase == Connected || phase == Disconnecting
      then this.(phase := Disconnected, writing := false, closed := true)
      else this
    }

    function Establish(): Stream { if phase == Connecting then this.(phase := Connected) else this }

    /** A call of another thread takes its next step. */
    function Move(old': Call, new': Call): Stream { this.(calls := calls - multiset{old'} + multiset{new'}) }

    /** setState(kDisconnecting) in another thread, some time after its test */
    function Store(force: bool): Stream { Move(Tested(force), Stored(force)).(phase := Disconnecting) }

    /** The functor of a call is run. */
    function RunQueued(force: bool): Stream {
      var s := this.(calls := calls - multiset{Queued(force)});
      if force then s.HandleClose() else s.ShutdownInLoop()
    }
  }

  const FRESH := Stream(Connecting, false, [], [], [], false, false, false, multiset{})

  datatype Event =
    | Establish
    | Send(data: Bytes, r: WriteResult)
    | ShutdownRequest         // shutdown() in the loop thread
    | CallTest(force: bool)   // shutdown() or forceClose() in another thread: the test of state_
    | CallStore(force: bool)  // ... the store to state_
    | CallQueue(force: bool)  // ... the queueing of its functor
    | CallRuns(force: bool)   // the functor is run
    | Writable(r: WriteResult)
    | Close

  /** The write result is one the kernel can give: it never takes more than it was offered; the steps of a call come in
      their order. */
  predicate Possible(s: Stream, e: Event) {
    match e
    case Send(data, r) => s.phase != Connecting && (r.Wrote? ==> r.n <= |data|)
    case Writable(r) => r.Wrote? ==> r.n <= |s.output|
    case CallTest(force) => s.phase == Connected || (force && s.phase == Disconnecting)
    case CallStore(force) => Tested(force) in s.calls
    case CallQueue(force) => Stored(force) in s.calls
    case CallRuns(force) => Queued(force) in s.calls
    case _ => true
  }

  function Step(s: Stream, e: Event): Stream {
    match e
    case Establish => s.Establish()
    case Send(data, r) => s.Send(data, r)
    case ShutdownRequest => s.Shutdown()
    case CallTest(force) => s.(calls := s.calls + multiset{Tested(force)})
    case CallStore(force) => s.Store(force)
    case CallQueue(force) => s.Move(Stored(force), Queued(force))
    case CallRuns(force) => s.RunQueued(force)
    case Writable(r) => s.HandleWrite(r)
    case Close => s.HandleClose()
  }

  function Play(s: Stream, es: seq<Event>): Stream
    decreases |es|
  {
    if es == [] then s else Play(Step(s, es[0]), es[1..])
  }

  ghost predicate Plays(s: Stream, es: seq<Event>)
    decreases |es|
  {
    es == [] || (Possible(s, es[0]) && Plays(Step(s, es[0]), es[1..]))
  }

  // ---------------------------------------------------------------- every step

  /** Every step of every thread keeps what holds in every run. */
  lemma StepSound(s: Stream, e: Event)
    requires s.Sound() && Possible(s, e)
    ensures Step(s, e).Sound()
  {
    match e
    case Send(data, r) => SendKeeps(s, data, r);
    case Writable(r) => HandleWriteKeeps(s, r);
    case _ =>
  }

  lemma SendKeeps(s: Stream, data: Bytes, r: WriteResult)
    requires s.Sound() && s.phase != Connecting && (r.Wrote? ==> r.n <= |data|)
    ensures s.Send(data, r).Sound() && (s.Valid() ==> s.Send(data, r).Valid())
  {
    if s.phase != Disconnected {
      if !s.writing && s.output == [] && r.Wrote? {
        assert s.given + data[..r.n] + ([] + data[r.n..]) == s.given + [] + data
          by { assert data[..r.n] + data[r.n..] == data; }
      } else {
        assert data[..0] == [] && data[0..] == data;
        assert s.given + [] + (s.output + data) == s.given + s.output + data;
      }
    }
  }

  lemma HandleWriteKeeps(s: Stream, r: WriteResult)
    requires s.Sound() && (r.Wrote? ==> r.n <= |s.output|)
    ensures s.HandleWrite(r).Sound() && (s.Valid() ==> s.HandleWrite(r).Valid())
  {
    if r.Wrote? {
      assert s.output[..r.n] + s.output[r.n..] == s.output;
      assert s.given + s.output[..r.n] + s.output[r.n..] == s.given + s.output;
    }
  }

  /** A store to the state after handleClose, on a connection that was closed with bytes buffered. */
  predicate Races(s: Stream, e: Event) { e.CallStore? && s.phase == Disconnected && s.output != [] }

  /** Every other step keeps the rest as well. */
  lemma StepKeeps(s: Stream, e: Event)
    requires s.Valid() && Possible(s, e) && !Races(s, e)
    ensures Step(s, e).Valid()
  {
    StepSound(s, e);
    match e
    case Send(data, r) => SendKeeps(s, data, r);
    case Writable(r) => HandleWriteKeeps(s, r);
    case _ =>
  }

  /** The store of another thread keeps write interest and buffer in step exactly when the connection has not been
      closed with bytes buffered. */
  lemma StoreIsSafeIff(s: Stream, force: bool)
    requires s.Valid() && Possible(s, CallStore(force))
    ensures s.Store(force).Valid() <==> s.phase != Disconnected || s.output == []
  {
    StepSound(s, CallStore(force));
  }

  // ---------------------------------------------------------------- every run

  /** The bytes a step takes responsibility for: the message, unless the connection is closed or the write faults. */
  function Accepted(s: Stream, e: Event): Bytes {
    if e.Send? && s.phase != Disconnected && !(e.r.Fault? && !s.writing && s.output == []) then e.data else []
  }

  function AllAccepted(s: Stream, es: seq<Event>): Bytes
    decreases |es|
  {
    if es == [] then [] else Accepted(s, es[0]) + AllAccepted(Step(s, es[0]), es[1..])
  }

  lemma SendAccepts(s: Stream, data: Bytes, r: WriteResult)
    requires r.Wrote? ==> r.n <= |data|
    ensures s.Send(data, r).sent == s.sent + Accepted(s, Event.Send(data, r))
  {
  }

  lemma StepAccepts(s: Stream, e: Event)
    requires Possible(s, e)
    ensures Step(s, e).sent == s.sent + Accepted(s, e)
  {
    if e.Send? { SendAccepts(s, e.data, e.r); } else { assert Step(s, e).sent == s.sent; }
  }

  /** What the kernel takes in a step, by the result of the write that the step makes: the first write of a message when
      nothing is waiting, or a write from the buffer while write interest is on. */
  function Taken(s: Stream, e: Event): Bytes {
    match e
    case Send(data, r) =>
      if s.phase != Disconnected && !s.writing && s.output == [] && r.Wrote? && r.n <= |data| then data[..r.n] else []
    case Writable(r) => if s.writing && r.Wrote? && r.n <= |s.output| then s.output[..r.n] else []
    case _ => []
  }

  function AllTaken(s: Stream, es: seq<Event>): Bytes
    decreases |es|
  {
    if es == [] then [] else Taken(s, es[0]) + AllTaken(Step(s, es[0]), es[1..])
  }

  lemma SendTakes(s: Stream, data: Bytes, r: WriteResult)
    requires r.Wrote? ==> r.n <= |data|
    ensures s.Send(data, r).given == s.given + Taken(s, Event.Send(data, r))
  {
    assert data[..0] == [] && s.given + [] == s.given;
  }

  lemma HandleWriteTakes(s: Stream, r: WriteResult)
    requires r.Wrote? ==> r.n <= |s.output|
    ensures s.HandleWrite(r).given == s.given + Taken(s, Writable(r))
  {
    assert s.output[..0] == [] && s.given + [] == s.given;
  }

  /** given is what the kernel took. */
  lemma StepTakes(s: Stream, e: Event)
    requires Possible(s, e)
    ensures Step(s, e).given == s.given + Taken(s, e)
  {
    match e
    case Send(data, r) => SendTakes(s, data, r);
    case Writable(r) => HandleWriteTakes(s, r);
    case _ => assert Step(s, e).given == s.given;
  }

  ghost predicate RaceFree(s: Stream, es: seq<Event>)
    decreases |es|
  {
    es == [] || (!Races(s, es[0]) && RaceFree(Step(s, es[0]), es[1..]))
  }

  lemma {:induction false} PlayKeeps(s: Stream, es: seq<Event>)
    requires s.Sound() && Plays(s, es)
    ensures Play(s, es).Sound() && Play(s, es).sent == s.sent + AllAccepted(s, es)
    ensures Play(s, es).given == s.given + AllTaken(s, es)
    decreases |es|
  {
    if es != [] {
      StepSound(s, es[0]);
      StepAccepts(s, es[0]);
      StepTakes(s, es[0]);
      PlayKeeps(Step(s, es[0]), es[1..]);
      Regroup(s.sent, Accepted(s, es[0]), AllAccepted(Step(s, es[0]), es[1..]));
      Regroup(s.given, Taken(s, es[0]), AllTaken(Step(s, es[0]), es[1..]));
    }
  }

  lemma {:induction false} RaceFreePlayKeeps(s: Stream, es: seq<Event>)
    requires s.Valid() && Plays(s, es) && RaceFree(s, es)
    ensures Play(s, es).Valid()
    decreases |es|
  {
    if es != [] {
      StepKeeps(s, es[0]);
      RaceFreePlayKeeps(Step(s, es[0]), es[1..]);
    }
  }

  /** Under all partial writes, closings and races of other threads, the bytes the kernel took, in all writes, followed
      by the output buffer are the accepted messages in order; until handleClose write interest is on exactly when bytes
      are buffered, and the write side is never shut on buffered bytes. */
  lemma BytesConserved(es: seq<Event>)
    requires Plays(FRESH, es)
    ensures var s := Play(FRESH, es);
      && s.given == AllTaken(FRESH, es) && s.given + s.output == AllAccepted(FRESH, es)
      && (!s.closed ==> (s.writing <==> s.output != []) && !s.cut)
  {
    PlayKeeps(FRESH, es);
  }

  /** Without a racing store the same holds while the state is not kDisconnected. */
  lemma InterestFollowsState(es: seq<Event>)
    requires Plays(FRESH, es) && RaceFree(FRESH, es)
    ensures var s := Play(FRESH, es); s.phase != Disconnected ==> (s.writing <==> s.output != []) && !s.cut
  {
    RaceFreePlayKeeps(FRESH, es);
  }

  /** Once handleClose has run on a connection that was up, no byte is accepted or given to the kernel any more and
      write interest stays off, unless another thread stores a state after it. */
  lemma {:induction false} CloseIsFinal(s: Stream, es: seq<Event>)
    requires s.phase == Disconnected && !s.writing && Plays(s, es)
    requires forall i :: 0 <= i < |es| ==> !es[i].CallStore?
    ensures var r := Play(s, es); r.phase == Disconnected && !r.writing && r.output == s.output
    ensures s.closed ==> Play(s, es).closed && Play(s, es).halfClosed == s.halfClosed
    ensures AllTaken(s, es) == [] && AllAccepted(s, es) == []
    decreases |es|
  {
    if es != [] {
      ClosedStep(s, es[0]);
      CloseIsFinal(Step(s, es[0]), es[1..]);
    }
  }

  lemma ClosedStep(s: Stream, e: Event)
    requires s.phase == Disconnected && !s.writing && Possible(s, e) && !e.CallStore?
    ensures var r := Step(s, e); r.phase == Disconnected && !r.writing && r.output == s.output
    ensures s.closed ==> Step(s, e).closed && Step(s, e).halfClosed == s.halfClosed
    ensures Taken(s, e) == [] && Accepted(s, e) == []
  {
  }

  lemma CloseCloses(s: Stream)
    requires s.Sound() && (s.phase == Connected || s.phase == Disconnecting)
    ensures var r := Step(s, Close);
      r.phase == Disconnected && !r.writing && r.closed && r.output == s.output && r.given == s.given
  {
  }

  /** In every run, when the functor of a forceClose has run the connection is closed, and no byte has been added, moved
      or dropped by it. */
  lemma ForceCloseCloses(s: Stream)
    requires s.Sound() && Possible(s, CallRuns(true))
    ensures var r := Step(s, CallRuns(true));
      && r.phase == Disconnected && r.closed && !r.writing
      && r.output == s.output && r.given == s.given && r.sent == s.sent
  {
  }

  /** In every run, shutdownInLoop shuts the write side on buffered bytes exactly when the connection has been closed
      with bytes buffered and none has been sent since. */
  lemma CutIffClosed(s: Stream)
    requires s.Sound() && !s.cut
    ensures s.ShutdownInLoop().cut <==> s.closed && s.output != [] && !s.writing
    ensures s.Valid() ==> (s.ShutdownInLoop().cut <==> s.phase == Disconnected && s.output != [])
  {
  }

  /** shutdown() of a connection that is not up, or not any more, does nothing. */
  lemma ShutdownOnlyIfUp(s: Stream)
    ensures Step(s, ShutdownRequest) == s <==> s.phase != Connected
  {
  }

  /** shutdown() half-closes at once exactly when nothing is buffered. */
  lemma ShutdownWaitsForOutput(s: Stream)
    requires s.Valid() && s.phase == Connected && !s.closed
    ensures var s1 := s.Shutdown();
      && s1.Valid() && s1.phase == Disconnecting && s1.output == s.output && s1.given == s.given && s1.sent == s.sent
      && (s1.halfClosed <==> s.halfClosed || s.output == [])
  {
    StepKeeps(s, ShutdownRequest);
  }

  /** Once a disconnecting stream has drained, everything accepted is with the kernel and the write side is shut. */
  lemma DrainedShutsDown(s: Stream, r: WriteResult)
    requires s.Valid() && !s.closed && s.phase == Disconnecting && s.output != [] && r == Wrote(|s.output|)
    ensures s.HandleWrite(r).halfClosed && s.HandleWrite(r).given == s.sent && !s.HandleWrite(r).cut
  {
    HandleWriteKeeps(s, r);
    assert s.HandleWrite(r).output == [];
  }

  /** A shutdown or forceClose of another thread has stored the state, and its functor has not run yet. */
  ghost predicate Underway(s: Stream) { exists force :: Stored(force) in s.calls || Queued(force) in s.calls }

  /** A disconnecting stream without output has its write side shut, or a call underway that will see to it. */
  ghost predicate Settled(s: Stream) {
    !s.closed && s.phase == Disconnecting && s.output == [] ==> s.halfClosed || Underway(s)
  }

  lemma SendSettles(s: Stream, data: Bytes, r: WriteResult)
    requires Settled(s)
    ensures Settled(s.Send(data, r))
  {
    assert s.Send(data, r).output == [] ==> s.output == [];
  }

  lemma HandleWriteSettles(s: Stream, r: WriteResult)
    requires Settled(s)
    ensures Settled(s.HandleWrite(r))
  {
    assert s.HandleWrite(r).calls == s.calls;
  }

  lemma CallSettles(s: Stream, e: Event)
    requires s.Sound() && Settled(s) && Possible(s, e) && (e.CallTest? || e.CallStore? || e.CallQueue?)
    ensures Settled(Step(s, e))
  {
    match e
    case CallTest(force) => if Underway(s) { TestKeepsUnderway(s, force); }
    case CallStore(force) => assert Stored(force) in s.Store(force).calls;
    case CallQueue(force) => assert Queued(force) in Step(s, e).calls;
  }

  lemma TestKeepsUnderway(s: Stream, force: bool)
    requires Underway(s)
    ensures Underway(Step(s, CallTest(force)))
  {
    var f :| Stored(f) in s.calls || Queued(f) in s.calls;
    assert Stored(f) in Step(s, CallTest(force)).calls || Queued(f) in Step(s, CallTest(force)).calls;
  }

  lemma RunSettles(s: Stream, force: bool)
    requires s.Sound() && Possible(s, CallRuns(force))
    ensures Settled(s.RunQueued(force))
  {
  }

  lemma StepSettles(s: Stream, e: Event)
    requires s.Sound() && Settled(s) && Possible(s, e)
    ensures Settled(Step(s, e))
  {
    match e
    case Send(data, r) => SendSettles(s, data, r);
    case Writable(r) => HandleWriteSettles(s, r);
    case CallTest(force) => CallSettles(s, e);
    case CallStore(force) => CallSettles(s, e);
    case CallQueue(force) => CallSettles(s, e);
    case CallRuns(force) => RunSettles(s, force);
    case _ => assert Step(s, e).calls == s.calls;
  }

  lemma {:induction false} PlaySettles(s: Stream, es: seq<Event>)
    requires s.Sound() && Settled(s) && Plays(s, es)
    ensures Settled(Play(s, es))
    decreases |es|
  {
    if es != [] {
      StepSound(s, es[0]);
      StepSettles(s, es[0]);
      PlaySettles(Step(s, es[0]), es[1..]);
    }
  }

  /** Orderly half-close, over every run with any partial writes, sends in between and calls of other threads: a
      disconnecting stream whose output has drained has given the kernel every accepted byte, has cut none off, and has
      its write side shut unless a call of another thread is still underway. */
  lemma OrderlyHalfClose(es: seq<Event>)
    requires Plays(FRESH, es)
    ensures var s := Play(FRESH, es);
      !s.closed && s.phase == Disconnecting && s.output == [] ==>
        s.given == AllAccepted(FRESH, es) && !s.cut && (s.halfClosed || Underway(s))
  {
    PlaySettles(FRESH, es);
    BytesConserved(es);
    var s := Play(FRESH, es);
    assert s.given + [] == s.given;
  }

  // ---------------------------------------------------------------- two runs that go wrong

  /** Playing one more event. */
  lemma {:induction false} PlayOn(s: Stream, es: seq<Event>, e: Event)
    requires Plays(s, es) && Possible(Play(s, es), e)
    ensures Plays(s, es + [e]) && Play(s, es + [e]) == Step(Play(s, es), e)
    decreases |es|
  {
    if es == [] {
      assert [e][1..] == [];
      assert Plays(Step(s, e), []);
      assert es + [e] == [e];
    } else {
      assert (es + [e])[1..] == es[1..] + [e];
      PlayOn(Step(s, es[0]), es[1..], e);
    }
  }

  /** A byte is buffered, and another thread's shutdown() tests the state. */
  function Opening(b: Byte): seq<Event> { [Establish, Send([b], Refused), CallTest(false)] }

  /** The connection with a byte it could not write yet. */
  function Holding(b: Byte): Stream { Stream(Connected, true, [b], [], [b], false, false, false, multiset{}) }

  lemma FirstSend(b: Byte)
    ensures FRESH.Establish().Send([b], Refused) == Holding(b)
  {
    assert [b][..0] == [] && [b][0..] == [b];
    assert [] + [b] == [b];
  }

  lemma Opens(b: Byte)
    ensures Plays(FRESH, Opening(b))
    ensures Play(FRESH, Opening(b)) == Holding(b).(calls := multiset{Tested(false)})
  {
    var e1, e2: seq<Event> := [Establish], [Establish, Send([b], Refused)];
    FirstSend(b);
    PlayOn(FRESH, [], Establish);
    assert [] + e1 == e1;
    PlayOn(FRESH, e1, Send([b], Refused));
    assert e1 + [Send([b], Refused)] == e2;
    PlayOn(FRESH, e2, CallTest(false));
    assert e2 + [CallTest(false)] == Opening(b);
  }

  /** The racing store leaves a connection that is not kDisconnected with a buffered byte and no write interest. */
  lemma RacingStoreStrands(b: Byte)
    ensures var es := Opening(b) + [Close] + [CallStore(false)];
      && Plays(FRESH, es) && !RaceFree(FRESH, es)
      && Play(FRESH, es).phase != Disconnected && !Play(FRESH, es).writing && Play(FRESH, es).output == [b]
  {
    var es := Opening(b);
    Opens(b);
    PlayOn(FRESH, es, Close);
    PlayOn(FRESH, es + [Close], CallStore(false));
    RaceAtEnd(FRESH, es + [Close], CallStore(false));
  }

  lemma {:induction false} RaceAtEnd(s: Stream, es: seq<Event>, e: Event)
    requires Races(Play(s, es), e)
    ensures !RaceFree(s, es + [e])
    decreases |es|
  {
    if es == [] {
      assert es + [e] == [e];
    } else {
      assert (es + [e])[1..] == es[1..] + [e];
      RaceAtEnd(Step(s, es[0]), es[1..], e);
    }
  }

  /** A shutdown of another thread that is stored before the close and run after it cuts a buffered byte off. */
  lemma LateShutdownCuts(b: Byte)
    ensures var es := Opening(b) + [CallStore(false)] + [CallQueue(false)] + [Close] + [CallRuns(false)];
      Plays(FRESH, es) && Play(FRESH, es).cut
  {
    var es := Opening(b);
    Opens(b);
    PlayOn(FRESH, es, CallStore(false));
    es := es + [CallStore(false)];
    PlayOn(FRESH, es, CallQueue(false));
    es := es + [CallQueue(false)];
    PlayOn(FRESH, es, Close);
    PlayOn(FRESH, es + [Close], CallRuns(false));
  }

  // ---------------------------------------------------------------- the object

  class Connection {
    var phase: Phase
    var writing: bool
    var output: Bytes
    ghost var given: Bytes
    ghost var sent: Bytes
    ghost var closed: bool
    ghost var halfClosed: bool
    ghost var cut: bool
    ghost var calls: multiset<Call>

    ghost function Abs(): Stream
      reads this
    {
      Stream(phase, writing, output, given, sent, closed, halfClosed, cut, calls)
    }

    constructor ()
      ensures Abs() == FRESH && Abs().Valid()
    {
      phase, writing, output := Connecting, false, [];
      given, sent, closed, halfClosed, cut, calls := [], [], false, false, false, multiset{};
    }

    /** sendInLoop: write directly if nothing is queued, and buffer what the kernel did not take. */
    method SendInLoop(data: Bytes, r: WriteResult)
      requires Abs().Sound() && phase != Connecting && (r.Wrote? ==> r.n <= |data|)
      modifies this
      ensures Abs() == old(Abs()).Send(data, r)
      ensures Abs().Sound() && (old(Abs().Valid()) ==> Abs().Valid())
    {
      SendKeeps(Abs(), data, r);
      assert data[..0] == [] && data[0..] == data && given + [] == given && output + [] == output;
      var nwrote, remaining, faultError := 0, |data|, false;
      if phase == Disconnected {
        return;
      }
      if !writing && |output| == 0 {
        match r {
          case Wrote(n) =>
            nwrote := n;
            remaining := |data| - n;
            given := given + data[..n];
          case Refused =>
          case Fault => faultError := true;
        }
      }
      if !faultError {
        sent := sent + data;
      }
      if !faultError && remaining > 0 {
        output := output + data[nwrote..];
        if !writing {
          writing := true;
        }
      }
    }

    method ShutdownInLoop()
      requires Abs().Sound() && phase != Connecting
      modifies this
      ensures Abs() == old(Abs()).ShutdownInLoop()
      ensures Abs().Sound() && (old(Abs().Valid()) ==> Abs().Valid())
    {
      if !writing {
        // shutdownWrite()
        halfClosed := halfClosed || !closed;
        cut := cut || output != [];
      }
    }

    method Shutdown()
      requires Abs().Sound()
      modifies this
      ensures Abs() == old(Abs()).Shutdown()
      ensures Abs().Sound() && (old(Abs().Valid()) ==> Abs().Valid())
    {
      if phase == Connected {
        phase := Disconnecting;
        ShutdownInLoop();
      }
    }

    /** handleWrite: hand buffered bytes to the kernel; when drained, turn write interest off and finish a shutdown. */
    method HandleWrite(r: WriteResult)
      requires Abs().Sound() && phase != Connecting && (r.Wrote? ==> r.n <= |output|)
      modifies this
      ensures Abs() == old(Abs()).HandleWrite(r)
      ensures Abs().Sound() && (old(Abs().Valid()) ==> Abs().Valid())
    {
      HandleWriteKeeps(Abs(), r);
      if writing {
        if r.Wrote? && r.n > 0 {
          given := given + output[..r.n];
          output := output[r.n..];
          if |output| == 0 {
            writing := false;
            if phase == Disconnecting {
              ShutdownInLoop();
            }
          }
        }
      }
    }

    method HandleClose()
      requires Abs().Sound() && (phase == Connected || phase == Disconnecting)
      modifies this
      ensures Abs() == old(Abs()).HandleClose()
      ensures Abs().Sound() && (old(Abs().Valid()) ==> Abs().Valid())
    {
      phase := Disconnected;
      writing := false;
      closed := true;
    }

    method ConnectEstablished()
      requires Abs().Sound() && phase == Connecting
      modifies this
      ensures Abs() == old(Abs()).Establish()
      ensures Abs().Sound() && (old(Abs().Valid()) ==> Abs().Valid())
    {
      phase := Connected;
    }
  }
}
