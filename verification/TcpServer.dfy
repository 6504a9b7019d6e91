/** The life of a connection in muduo's TcpServer, TcpConnection and Channel, across threads.

    The server lives in loop 0; every connection lives in one loop, which may be loop 0.
    A step is one locked or single-threaded action of one thread, so runs are all
    interleavings.  Each connection carries a log of what happened to it; the main
    result is that this log is always a prefix of UP, DOWN, ERASED, DESTROYED. */
module TcpServer {
  import opened ConnectionPhase

  datatype Mark = Up | Down | Erased | Destroyed

  /** loop: the I/O loop of the connection; reading, writing: the channel's interest; added: the channel is
      known to the poller; log: connection callbacks, erasure from the map and connectDestroyed, in order. */
  datatype Conn = Conn(loop: nat, phase: Phase, reading: bool, writing: bool, added: bool, log: seq<Mark>)
  {
    predicate Open() { phase == Connected || phase == Disconnecting }
  }

  datatype Task = Establish(c: nat) | Remove(c: nat) | Destroy(c: nat) | ForceClose(c: nat)

  /** The channel callbacks that one reported event set triggers. */
  datatype Handler = OnClose(c: nat) | OnError(c: nat) | OnRead(c: nat) | OnWrite(c: nat)

  datatype Revents = Revents(IN: bool, PRI: bool, OUT: bool, HUP: bool, RDHUP: bool, ERR: bool, NVAL: bool)

  /** queues: pendingFunctors_ of each loop; todo: the callbacks each loop has still to call for the events
      poll reported; calls: shutdown and forceClose calls of other threads between their test and their store;
      stored: forceClose calls between their store and queueInLoop; failed: some assert of the source has been
      violated. */
  datatype World = World(
    conns: seq<Conn>,
    listed: set<nat>,
    queues: seq<seq<Task>>,
    todo: seq<seq<Handler>>,
    calls: multiset<(nat, bool)>,
    stored: multiset<nat>,
    failed: bool)

  // ---------------------------------------------------------------- actions

  function Push(w: World, l: nat, t: Task): World
    requires l < |w.queues|
  {
    w.(queues := w.queues[l := w.queues[l] + [t]])
  }

  function SetConn(w: World, c: nat, conn: Conn): World
    requires c < |w.conns|
  {
    w.(conns := w.conns[c := conn])
  }

  function Failing(w: World, ok: bool): World { w.(failed := w.failed || !ok) }

  predicate Known(w: World, c: nat) { c < |w.conns| && w.conns[c].loop < |w.queues| && 0 < |w.queues| }

  /** TcpConnection::connectEstablished */
  function ConnectEstablished(w: World, c: nat): World
    requires Known(w, c)
  {
    var k := w.conns[c];
    SetConn(Failing(w, k.phase == Connecting), c,
      k.(phase := Connected, reading := true, added := true, log := k.log + [Up]))
  }

  /** TcpServer::removeConnectionInLoop */
  function RemoveInLoop(w: World, c: nat): World
    requires Known(w, c)
  {
    var k := w.conns[c];
    Push(SetConn(Failing(w, c in w.listed), c, k.(log := k.log + [Erased])).(listed := w.listed - {c}), k.loop,
      Destroy(c))
  }

  /** TcpConnection::handleClose, with the server's close callback */
  function HandleClose(w: World, c: nat): World
    requires Known(w, c)
  {
    var k := w.conns[c];
    var w1 := SetConn(Failing(w, k.Open()), c,
      k.(phase := Disconnected, reading := false, writing := false, log := k.log + [Down]));
    if k.loop == 0 then RemoveInLoop(w1, c) else Push(w1, 0, Remove(c))
  }

  /** TcpConnection::connectDestroyed */
  function ConnectDestroyed(w: World, c: nat): World
    requires Known(w, c)
  {
    var k := w.conns[c];
    var k1 := if k.phase == Connected
              then k.(phase := Disconnected, reading := false, writing := false, log := k.log + [Down]) else k;
    SetConn(Failing(w, !k1.reading && !k1.writing), c, k1.(added := false, log := k1.log + [Destroyed]))
  }

  function RunTask(w: World, t: Task): World
    requires Known(w, t.c)
  {
    match t
    case Establish(c) => ConnectEstablished(w, c)
    case Remove(c) => RemoveInLoop(w, c)
    case Destroy(c) => ConnectDestroyed(w, c)
    case ForceClose(c) => if w.conns[c].Open() then HandleClose(w, c) else w
  }

  /** TcpServer::newConnection, handing the connection to loop l */
  function NewConnection(w: World, l: nat): World
    requires l < |w.queues|
  {
    var c := |w.conns|;
    var w1 := w.(conns := w.conns + [Conn(l, Connecting, false, false, false, [])], listed := w.listed + {c});
    if l == 0 then ConnectEstablished(w1, c) else Push(w1, l, Establish(c))
  }

  /** Channel::handleEventWithGuard: which callbacks run, in which order */
  function Dispatched(c: nat, r: Revents): seq<Handler> {
    (if r.HUP && !r.IN then [OnClose(c)] else []) +
    (if r.ERR || r.NVAL then [OnError(c)] else []) +
    (if r.IN || r.PRI || r.RDHUP then [OnRead(c)] else []) +
    (if r.OUT then [OnWrite(c)] else [])
  }

  /** The channel callbacks; n is what read(2) returns, drained whether handleWrite empties the buffer. */
  function RunHandler(w: World, h: Handler, n: int, drained: bool): World
    requires Known(w, h.c)
  {
    match h
    case OnClose(c) => HandleClose(w, c)
    case OnError(c) => w
    case OnRead(c) => if n == 0 then HandleClose(w, c) else w
    case OnWrite(c) => if w.conns[c].writing && drained then SetConn(w, c, w.conns[c].(writing := false)) else w
  }

  /** startReadInLoop and stopReadInLoop: Channel::update enters the channel in the poller. */
  function WithReading(w: World, c: nat, on: bool): World
    requires c < |w.conns|
  {
    SetConn(w, c, w.conns[c].(reading := on, added := true))
  }

  // ---------------------------------------------------------------- steps

  datatype Step =
    | Accept(l: nat)                                  // the acceptor hands over a new connection
    | RunFunctor(l: nat)                              // loop l runs its next pending functor
    | PollReturns(l: nat, events: seq<(nat, Revents)>)
    | CallHandler(l: nat, n: int, drained: bool)      // loop l calls the next callback of the reported events
    | CallTest(c: nat, force: bool)                   // shutdown or forceClose: the test of state_
    | CallStore(c: nat, force: bool)                  // ... the store to state_
    | CallQueue(c: nat)                               // forceClose: queueInLoop after the store
    | SendInLoop(c: nat)
    | StartRead(c: nat)
    | StopRead(c: nat)

  /** HUP without IN, together with PRI or RDHUP: the close callback and the read callback both run. */
  predicate ClosesTwice(r: Revents) { r.HUP && !r.IN && (r.PRI || r.RDHUP) }

  /** The poller may report r for channel c of loop l. */
  ghost predicate Reportable(w: World, l: nat, c: nat, r: Revents) {
    && c < |w.conns| && w.conns[c].loop == l && w.conns[c].added && (w.conns[c].reading || w.conns[c].writing)
    && !ClosesTwice(r)
  }

  ghost predicate Enabled(w: World, step: Step) {
    match step
    case Accept(l) => l < |w.queues|
    case RunFunctor(l) => l < |w.queues| && l < |w.todo| && w.todo[l] == [] && w.queues[l] != []
    case PollReturns(l, events) =>
      && l < |w.todo| && w.todo[l] == []
      && (forall i :: 0 <= i < |events| ==> Reportable(w, l, events[i].0, events[i].1))
      && (forall i, j :: 0 <= i < j < |events| ==> events[i].0 != events[j].0)
    case CallHandler(l, n, _) => l < |w.todo| && w.todo[l] != []
    case CallTest(c, force) => c < |w.conns| &&
      (w.conns[c].phase == Connected || (force && w.conns[c].phase == Disconnecting))
    case CallStore(c, force) => c < |w.conns| && (c, force) in w.calls
    case CallQueue(c) => c < |w.conns| && c in w.stored
    case SendInLoop(c) => c < |w.conns| && w.conns[c].phase != Connecting
    case StartRead(c) => c < |w.conns| && w.conns[c].Open()
    case StopRead(c) => c < |w.conns| && 1 <= |w.conns[c].log| <= 3
  }

  /** A store to state_ does not race if the connection has not been closed since the test. */
  ghost predicate RaceFree(w: World, step: Step) {
    step.CallStore? && step.c < |w.conns| ==> w.conns[step.c].phase != Disconnected
  }

  function AllDispatched(events: seq<(nat, Revents)>): seq<Handler> {
    if events == [] then [] else Dispatched(events[0].0, events[0].1) + AllDispatched(events[1..])
  }

  ghost predicate Next(w: World, step: Step, w': World) {
    && Enabled(w, step)
    && match step
       case Accept(l) => w' == NewConnection(w, l)
       case RunFunctor(l) =>
         var t := w.queues[l][0];
         Known(w, t.c) && w' == RunTask(w.(queues := w.queues[l := w.queues[l][1..]]), t)
       case PollReturns(l, events) => w' == w.(todo := w.todo[l := AllDispatched(events)])
       case CallHandler(l, n, drained) =>
         var h := w.todo[l][0];
         Known(w, h.c) && w' == RunHandler(w.(todo := w.todo[l := w.todo[l][1..]]), h, n, drained)
       case CallTest(c, force) => w' == w.(calls := w.calls + multiset{(c, force)})
       case CallStore(c, force) =>
         var w1 := SetConn(w, c, w.conns[c].(phase := Disconnecting)).(calls := w.calls - multiset{(c, force)});
         w' == if force then w1.(stored := w.stored + multiset{c}) else w1
       case CallQueue(c) =>
         Known(w, c) && w' == Push(w.(stored := w.stored - multiset{c}), w.conns[c].loop, ForceClose(c))
       case SendInLoop(c) =>
         w' == (if w.conns[c].phase == Disconnected then w else SetConn(w, c, w.conns[c].(writing := true))) || w' == w
       case StartRead(c) => w' == WithReading(w, c, true)
       case StopRead(c) => w' == WithReading(w, c, false)
  }

  function Start(loops: nat): World {
    World([], {}, seq(loops, _ => []), seq(loops, _ => []), multiset{}, multiset{}, false)
  }

  // ---------------------------------------------------------------- the invariant

  const LIFE: seq<Mark> := [Up, Down, Erased, Destroyed]

  /** The log fixes everything else about a connection. */
  ghost predicate ConnOk(k: Conn) {
    && k.log <= LIFE
    && (k.phase == Connecting <==> |k.log| == 0)
    && (k.Open() <==> |k.log| == 1)
    && (k.added <==> 1 <= |k.log| <= 3)
    && (k.reading || k.writing ==> k.Open())
  }

  predicate Closing(h: Handler) { h.OnClose? || h.OnRead? }

  /** The callbacks loop l still has to call belong to its own live channels, and close each at most once. */
  ghost predicate TodoOk(w: World, l: nat)
    requires l < |w.todo|
  {
    && (forall i :: 0 <= i < |w.todo[l]| ==>
          && w.todo[l][i].c < |w.conns| && w.conns[w.todo[l][i].c].loop == l
          && 1 <= |w.conns[w.todo[l][i].c].log| <= 3
          && (Closing(w.todo[l][i]) ==> w.conns[w.todo[l][i].c].Open()))
    && (forall i, j :: 0 <= i < j < |w.todo[l]| && Closing(w.todo[l][i]) && Closing(w.todo[l][j]) ==>
          w.todo[l][i].c != w.todo[l][j].c)
  }

  /** The loop whose queue a task belongs to. */
  ghost function Home(w: World, t: Task): nat
    requires t.c < |w.conns|
  {
    if t.Remove? then 0 else w.conns[t.c].loop
  }

  /** How many copies of a task the connection's log calls for. */
  ghost function Due(w: World, t: Task): nat
    requires t.c < |w.conns|
  {
    var n := |w.conns[t.c].log|;
    if (t.Establish? && n == 0) || (t.Remove? && n == 2) || (t.Destroy? && n == 3) then 1 else 0
  }

  datatype Hand = Nothing | Holding(t: Task)

  ghost function InHand(hand: Hand, t: Task): nat {
    match hand
    case Nothing => 0
    case Holding(held) => if held == t then 1 else 0
  }

  ghost predicate TaskOk(w: World, hand: Hand, t: Task)
    requires t.c < |w.conns| && Home(w, t) < |w.queues|
  {
    t.ForceClose? || multiset(w.queues[Home(w, t)])[t] + InHand(hand, t) == Due(w, t)
  }

  ghost predicate ConnsOk(w: World) {
    && 0 < |w.queues| == |w.todo| && !w.failed
    && (forall c :: 0 <= c < |w.conns| ==> w.conns[c].loop < |w.queues| && ConnOk(w.conns[c]))
    && (forall c :: c in w.listed <==> 0 <= c < |w.conns| && |w.conns[c].log| <= 2)
    && (forall p :: p in w.calls ==> p.0 < |w.conns| && w.conns[p.0].phase != Connecting)
    && (forall c :: c in w.stored ==> c < |w.conns|)
  }

  ghost predicate TodosOk(w: World) {
    forall l {:trigger w.todo[l]} :: 0 <= l < |w.todo| ==> TodoOk(w, l)
  }

  ghost predicate QueuesOk(w: World) {
    && (forall l, t :: 0 <= l < |w.queues| && t in w.queues[l] ==> t.c < |w.conns| && l == Home(w, t))
  }

  ghost predicate TasksOk(w: World, hand: Hand) {
    forall t: Task {:trigger TaskOk(w, hand, t)} :: t.c < |w.conns| && Home(w, t) < |w.queues| ==> TaskOk(w, hand, t)
  }

  /** hand: a functor that has been taken from its queue but not yet run. */
  ghost predicate Inv(w: World, hand: Hand) {
    ConnsOk(w) && TodosOk(w) && QueuesOk(w) && TasksOk(w, hand)
  }

  // ---------------------------------------------------------------- one connection changes

  /** The callbacks still to be called allow connection c to become k. */
  ghost predicate TodoAllows(hs: seq<Handler>, c: nat, k: Conn) {
    forall i :: 0 <= i < |hs| && hs[i].c == c ==> 1 <= |k.log| <= 3 && (Closing(hs[i]) ==> k.Open())
  }

  /** w' is w with connection c replaced, the map adjusted to its log, and at most one task for c queued at its home. */
  ghost predicate Changed(w: World, w': World, c: nat, push: Hand) {
    && c < |w.conns| && 0 < |w.queues| == |w.todo| && w.conns[c].loop < |w.queues| && (push.Holding? ==> push.t.c == c)
    && |w'.conns| == |w.conns| && w'.conns == w.conns[c := w'.conns[c]]
    && w'.conns[c].loop == w.conns[c].loop && ConnOk(w'.conns[c]) && TodoAllows(w.todo[w.conns[c].loop], c, w'.conns[c])
    && (forall x :: x in w'.listed <==> if x == c then |w'.conns[c].log| <= 2 else x in w.listed)
    && w'.todo == w.todo && w'.failed == w.failed
    && w'.queues ==
      (if push.Holding? then w.queues[Home(w, push.t) := w.queues[Home(w, push.t)] + [push.t]] else w.queues)
    && (forall p :: p in w'.calls ==> p in w.calls || p.0 == c)
    && (forall x :: x in w'.stored ==> x in w.stored || x == c)
    && (w'.conns[c].phase == Connecting ==> w.conns[c].phase == Connecting && w'.calls == w.calls)
  }

  /** The tasks queued for c, with the one just pushed and the one just run, match the new log. */
  ghost predicate TokensMove(w: World, hand: Hand, w': World, c: nat, push: Hand)
    requires c < |w.conns| && c < |w'.conns|
  {
    forall t: Task {:trigger Due(w', t)} :: t.c == c && !t.ForceClose? ==>
      Due(w, t) + InHand(push, t) == Due(w', t) + InHand(hand, t)
  }

  lemma TasksKept(w: World, hand: Hand, w': World, c: nat, push: Hand, t: Task)
    requires Inv(w, hand) && (hand.Holding? ==> hand.t.c == c) && Changed(w, w', c, push)
    requires TokensMove(w, hand, w', c, push) && t.c < |w.conns|
    ensures Home(w', t) < |w'.queues| && TaskOk(w', Nothing, t)
  {
    assert TaskOk(w, hand, t);
    CountAfter(w, w', c, push, t);
    assert t.c != c ==> Due(w', t) == Due(w, t);
  }

  lemma CountAfter(w: World, w': World, c: nat, push: Hand, t: Task)
    requires Changed(w, w', c, push) && t.c < |w.conns| && Home(w, t) < |w.queues|
    ensures Home(w', t) == Home(w, t) < |w'.queues|
    ensures multiset(w'.queues[Home(w, t)])[t] == multiset(w.queues[Home(w, t)])[t] + InHand(push, t)
  {
    assert w'.conns[t.c].loop == w.conns[t.c].loop;
    if push.Holding? { PushOne(w.queues[Home(w, push.t)], push.t, t); }
  }

  lemma PushOne(q: seq<Task>, t: Task, u: Task)
    ensures multiset(q + [t])[u] == multiset(q)[u] + InHand(Holding(t), u)
  {
  }

  lemma ChangeKeepsConns(w: World, w': World, c: nat, push: Hand)
    requires ConnsOk(w) && Changed(w, w', c, push)
    ensures ConnsOk(w')
  {
    forall x ensures x in w'.listed <==> 0 <= x < |w'.conns| && |w'.conns[x].log| <= 2 { }
  }

  lemma ChangeKeepsTodos(w: World, w': World, c: nat, push: Hand)
    requires ConnsOk(w) && TodosOk(w) && Changed(w, w', c, push)
    ensures TodosOk(w')
  {
    forall l | 0 <= l < |w'.todo| ensures TodoOk(w', l) {
      assert w.todo[l] == w'.todo[l] && TodoOk(w, l);
    }
  }

  lemma ChangeKeepsQueues(w: World, w': World, c: nat, push: Hand)
    requires ConnsOk(w) && QueuesOk(w) && Changed(w, w', c, push)
    ensures QueuesOk(w')
  {
    forall l, t | 0 <= l < |w'.queues| && t in w'.queues[l] ensures t.c < |w'.conns| && l == Home(w', t) {
      assert t in w.queues[l] || Holding(t) == push;
    }
  }

  lemma ChangeKeeps(w: World, hand: Hand, w': World, c: nat, push: Hand)
    requires Inv(w, hand) && (hand.Holding? ==> hand.t.c == c) && Changed(w, w', c, push) &&
      TokensMove(w, hand, w', c, push)
    ensures Inv(w', Nothing)
  {
    forall t: Task | t.c < |w'.conns| ensures Home(w', t) < |w'.queues| && TaskOk(w', Nothing, t) {
      TasksKept(w, hand, w', c, push, t);
    }
    ChangeKeepsConns(w, w', c, push);
    ChangeKeepsTodos(w, w', c, push);
    ChangeKeepsQueues(w, w', c, push);
  }

  // ---------------------------------------------------------------- each action keeps the invariant

  lemma EstablishKeeps(w: World, hand: Hand, c: nat)
    requires Inv(w, hand) && c < |w.conns| && hand == Holding(Establish(c)) && w.conns[c].log == []
    ensures Known(w, c) && Inv(ConnectEstablished(w, c), Nothing)
  {
    assert TodoOk(w, w.conns[c].loop);
    ChangeKeeps(w, hand, ConnectEstablished(w, c), c, Nothing);
  }

  lemma RemoveKeeps(w: World, c: nat)
    requires Inv(w, Holding(Remove(c))) && c < |w.conns| && |w.conns[c].log| == 2
    ensures Known(w, c) && Inv(RemoveInLoop(w, c), Nothing)
  {
    var w' := RemoveInLoop(w, c);
    assert TodoOk(w, w.conns[c].loop);
    assert w.conns[c].log == [Up, Down];
    ChangeKeeps(w, Holding(Remove(c)), w', c, Holding(Destroy(c)));
  }

  lemma DestroyKeeps(w: World, c: nat)
    requires Inv(w, Holding(Destroy(c))) && c < |w.conns| && |w.conns[c].log| == 3 && w.todo[w.conns[c].loop] == []
    ensures Known(w, c) && Inv(ConnectDestroyed(w, c), Nothing)
  {
    assert TodoOk(w, w.conns[c].loop);
    assert w.conns[c].log == [Up, Down, Erased];
    ChangeKeeps(w, Holding(Destroy(c)), ConnectDestroyed(w, c), c, Nothing);
  }

  /** Closing an open connection: the DOWN callback, then the removal, at once or through loop 0. */
  lemma CloseKeeps(w: World, hand: Hand, c: nat)
    requires Inv(w, hand) && c < |w.conns| && w.conns[c].Open() && (hand.Holding? ==> hand.t == ForceClose(c))
    requires forall i :: 0 <= i < |w.todo[w.conns[c].loop]| && w.todo[w.conns[c].loop][i].c == c ==>
      !Closing(w.todo[w.conns[c].loop][i])
    ensures Known(w, c) && Inv(HandleClose(w, c), Nothing)
  {
    CloseChanges(w, hand, c);
    ChangeKeeps(w, hand, HandleClose(w, c), c, Holding(if w.conns[c].loop == 0 then Destroy(c) else Remove(c)));
  }

  lemma CloseChanges(w: World, hand: Hand, c: nat)
    requires ConnsOk(w) && TodosOk(w) && c < |w.conns| && w.conns[c].Open()
    requires hand.Holding? ==> hand.t == ForceClose(c)
    requires forall i :: 0 <= i < |w.todo[w.conns[c].loop]| && w.todo[w.conns[c].loop][i].c == c ==>
      !Closing(w.todo[w.conns[c].loop][i])
    ensures var push := Holding(if w.conns[c].loop == 0 then Destroy(c) else Remove(c));
      Known(w, c) && Changed(w, HandleClose(w, c), c, push) && TokensMove(w, hand, HandleClose(w, c), c, push)
  {
    assert TodoOk(w, w.conns[c].loop);
    assert w.conns[c].log == [Up];
  }

  lemma NewConnectionKeeps(w: World, l: nat)
    requires Inv(w, Nothing) && l < |w.queues|
    ensures Inv(NewConnection(w, l), Nothing)
  {
    var c := |w.conns|;
    var w1 := w.(conns := w.conns + [Conn(l, Connecting, false, false, false, [])], listed := w.listed + {c});
    NewConnHeld(w, l, w1);
    if l == 0 {
      EstablishKeeps(w1, Holding(Establish(c)), c);
    } else {
      assert TodoOk(w1, l);
      ChangeKeeps(w1, Holding(Establish(c)), Push(w1, l, Establish(c)), c, Holding(Establish(c)));
    }
  }

  lemma NewConnHeld(w: World, l: nat, w1: World)
    requires Inv(w, Nothing) && l < |w.queues|
    requires w1 ==
      w.(conns := w.conns + [Conn(l, Connecting, false, false, false, [])], listed := w.listed + {|w.conns|})
    ensures Inv(w1, Holding(Establish(|w.conns|)))
  {
    forall i | 0 <= i < |w1.todo| ensures TodoOk(w1, i) { assert w1.todo[i] == w.todo[i] && TodoOk(w, i); }
    forall t: Task | t.c < |w1.conns| && Home(w1, t) < |w1.queues|
      ensures TaskOk(w1, Holding(Establish(|w.conns|)), t)
    {
      if t.c < |w.conns| { assert TaskOk(w, Nothing, t); } else { assert t !in w.queues[Home(w1, t)]; }
    }
  }

  // ---------------------------------------------------------------- each step keeps the invariant

  lemma TakeOne(q: seq<Task>, t: Task, u: Task)
    requires q != [] && t == q[0]
    ensures t in q && multiset(q[1..])[u] + InHand(Holding(t), u) == multiset(q)[u]
    ensures u in q[1..] ==> u in q
  {
    assert q == [t] + q[1..];
  }

  lemma TakeKeepsTasks(w: World, l: nat, t: Task, w1: World)
    requires QueuesOk(w) && TasksOk(w, Nothing) && l < |w.queues| && w.queues[l] != [] && t == w.queues[l][0]
    requires w1 == w.(queues := w.queues[l := w.queues[l][1..]])
    ensures TasksOk(w1, Holding(t))
  {
    forall u: Task | u.c < |w1.conns| && Home(w1, u) < |w1.queues| ensures TaskOk(w1, Holding(t), u) {
      assert TaskOk(w, Nothing, u);
      TakeOne(w.queues[l], t, u);
    }
  }

  lemma TakeKeepsQueues(w: World, l: nat, t: Task, w1: World)
    requires QueuesOk(w) && l < |w.queues| && w.queues[l] != [] && t == w.queues[l][0]
    requires w1 == w.(queues := w.queues[l := w.queues[l][1..]])
    ensures QueuesOk(w1)
  {
    forall i, u | 0 <= i < |w1.queues| && u in w1.queues[i] ensures u.c < |w1.conns| && i == Home(w1, u) {
      TakeOne(w.queues[l], t, u);
      assert u in w.queues[i];
    }
  }

  lemma TakeKeepsTodos(w: World, queues: seq<seq<Task>>)
    requires ConnsOk(w) && TodosOk(w)
    ensures TodosOk(w.(queues := queues))
  {
    forall i | 0 <= i < |w.todo| ensures TodoOk(w.(queues := queues), i) { assert TodoOk(w, i); }
  }

  lemma TakeTask(w: World, l: nat, t: Task, w1: World)
    requires Inv(w, Nothing) && l < |w.queues| && w.queues[l] != [] && t == w.queues[l][0]
    requires w1 == w.(queues := w.queues[l := w.queues[l][1..]])
    ensures t.c < |w.conns| && l == Home(w, t) && Inv(w1, Holding(t)) && (t.ForceClose? || Due(w, t) == 1)
  {
    TakeKeepsTasks(w, l, t, w1);
    TakeKeepsQueues(w, l, t, w1);
    TakeKeepsTodos(w, w1.queues);
    TakeOne(w.queues[l], t, t);
    assert TaskOk(w, Nothing, t);
  }

  /** A forceCloseInLoop that finds the connection closed does nothing. */
  lemma IdleForceKeeps(w: World, c: nat)
    requires Inv(w, Holding(ForceClose(c)))
    ensures Inv(w, Nothing)
  {
    forall t: Task | t.c < |w.conns| && Home(w, t) < |w.queues| ensures TaskOk(w, Nothing, t) {
      assert TaskOk(w, Holding(ForceClose(c)), t);
    }
  }

  lemma RunFunctorKeeps(w: World, l: nat)
    requires Inv(w, Nothing) && Enabled(w, RunFunctor(l))
    ensures Known(w, w.queues[l][0].c) &&
      Inv(RunTask(w.(queues := w.queues[l := w.queues[l][1..]]), w.queues[l][0]), Nothing)
  {
    var t, w1 := w.queues[l][0], w.(queues := w.queues[l := w.queues[l][1..]]);
    TakeTask(w, l, t, w1);
    match t
    case Establish(c) => EstablishKeeps(w1, Holding(t), c);
    case Remove(c) => RemoveKeeps(w1, c);
    case Destroy(c) => DestroyKeeps(w1, c);
    case ForceClose(c) =>
      if w.conns[c].Open() {
        CloseKeeps(w1, Holding(t), c);
      } else {
        IdleForceKeeps(w1, c);
      }
  }

  lemma TakeHandler(w: World, l: nat, h: Handler, w1: World)
    requires Inv(w, Nothing) && l < |w.todo| && w.todo[l] != [] && h == w.todo[l][0]
    requires w1 == w.(todo := w.todo[l := w.todo[l][1..]])
    ensures Inv(w1, Nothing) && h.c < |w.conns| && w.conns[h.c].loop == l && (Closing(h) ==> w.conns[h.c].Open())
    ensures Closing(h) ==> forall i :: 0 <= i < |w1.todo[l]| && w1.todo[l][i].c == h.c ==> !Closing(w1.todo[l][i])
  {
    assert TodoOk(w, l);
    forall i | 0 <= i < |w1.todo| ensures TodoOk(w1, i) { TakeTodo(w, l, w1, i); }
    forall t: Task | t.c < |w1.conns| && Home(w1, t) < |w1.queues|
      ensures TaskOk(w1, Nothing, t)
    {
      assert TaskOk(w, Nothing, t);
    }
  }

  lemma TakeTodo(w: World, l: nat, w1: World, i: nat)
    requires l < |w.todo| && w.todo[l] != [] && w1 == w.(todo := w.todo[l := w.todo[l][1..]]) && i < |w.todo| &&
      TodoOk(w, i)
    ensures TodoOk(w1, i)
  {
  }

  lemma CallHandlerKeeps(w: World, l: nat, n: int, drained: bool)
    requires Inv(w, Nothing) && Enabled(w, CallHandler(l, n, drained))
    ensures Known(w, w.todo[l][0].c) &&
      Inv(RunHandler(w.(todo := w.todo[l := w.todo[l][1..]]), w.todo[l][0], n, drained), Nothing)
  {
    var h, w1 := w.todo[l][0], w.(todo := w.todo[l := w.todo[l][1..]]);
    TakeHandler(w, l, h, w1);
    if h.OnClose? || (h.OnRead? && n == 0) {
      CloseKeeps(w1, Nothing, h.c);
    } else if h.OnWrite? && w.conns[h.c].writing && drained {
      AdjustKeeps(w1, h.c, w1.conns[h.c].(writing := false));
    }
  }

  /** Changes of interest or phase that leave the log alone. */
  lemma AdjustKeeps(w: World, c: nat, k: Conn)
    requires Inv(w, Nothing) && c < |w.conns| && k.loop == w.conns[c].loop && k.log == w.conns[c].log &&
      k.added == w.conns[c].added
    requires ConnOk(k) && (w.conns[c].Open() ==> k.Open())
    ensures Inv(SetConn(w, c, k), Nothing)
  {
    assert TodoOk(w, k.loop);
    ChangeKeeps(w, Nothing, SetConn(w, c, k), c, Nothing);
  }

  lemma CallStoreKeeps(w: World, c: nat, force: bool, w': World)
    requires Inv(w, Nothing) && Next(w, CallStore(c, force), w') && w.conns[c].phase != Disconnected
    ensures Inv(w', Nothing)
  {
    assert (c, force) in w.calls && TodoOk(w, w.conns[c].loop);
    ChangeKeeps(w, Nothing, w', c, Nothing);
  }

  lemma CallQueueKeeps(w: World, c: nat, w': World)
    requires Inv(w, Nothing) && Next(w, CallQueue(c), w')
    ensures Inv(w', Nothing)
  {
    assert c in w.stored && TodoOk(w, w.conns[c].loop);
    ChangeKeeps(w, Nothing, w', c, Holding(ForceClose(c)));
  }

  lemma {:induction false} DispatchedOk(events: seq<(nat, Revents)>, i: nat) returns (e: nat)
    requires i < |AllDispatched(events)|
    ensures e < |events| && AllDispatched(events)[i].c == events[e].0
  {
    var d := Dispatched(events[0].0, events[0].1);
    if i < |d| {
      e := 0;
    } else {
      e := DispatchedOk(events[1..], i - |d|);
      e := e + 1;
    }
  }

  /** Without the double-close mix, one event set closes at most once. */
  /** The callbacks in the order of their calls. */
  function Rank(h: Handler): nat {
    match h
    case OnClose(_) => 0
    case OnError(_) => 1
    case OnRead(_) => 2
    case OnWrite(_) => 3
  }

  ghost predicate Ascending(d: seq<Handler>, bound: nat) {
    (forall i, j :: 0 <= i < j < |d| ==> Rank(d[i]) < Rank(d[j])) && (forall h :: h in d ==> Rank(h) < bound)
  }

  /** One callback more, or none. */
  lemma OneMore(d: seq<Handler>, h: Handler, on: bool) returns (d': seq<Handler>)
    requires Ascending(d, Rank(h))
    ensures d' == d + (if on then [h] else []) && Ascending(d', Rank(h) + 1)
    ensures forall x :: x in d' <==> x in d || (on && x == h)
  {
    d' := d + (if on then [h] else []);
  }

  lemma InOrder(c: nat, close: bool, error: bool, read: bool, write: bool) returns (d: seq<Handler>)
    ensures d == (if close then [OnClose(c)] else []) + (if error then [OnError(c)] else []) +
      (if read then [OnRead(c)] else []) + (if write then [OnWrite(c)] else [])
    ensures forall h :: h in d <==>
      (h == OnClose(c) && close) || (h == OnError(c) && error) || (h == OnRead(c) && read) || (h == OnWrite(c) && write)
    ensures forall i, j :: 0 <= i < j < |d| ==> Rank(d[i]) < Rank(d[j])
  {
    var d0 := if close then [OnClose(c)] else [];
    var d1 := OneMore(d0, OnError(c), error);
    var d2 := OneMore(d1, OnRead(c), read);
    d := OneMore(d2, OnWrite(c), write);
  }

  /** Which callbacks a poll result leads to, each once and in order. */
  lemma DispatchedIff(c: nat, r: Revents)
    ensures var d := Dispatched(c, r);
      && (forall h :: h in d <==>
          || (h == OnClose(c) && r.HUP && !r.IN)
          || (h == OnError(c) && (r.ERR || r.NVAL))
          || (h == OnRead(c) && (r.IN || r.PRI || r.RDHUP))
          || (h == OnWrite(c) && r.OUT))
      && (forall i, j :: 0 <= i < j < |d| ==> Rank(d[i]) < Rank(d[j]))
  {
    var d := InOrder(c, r.HUP && !r.IN, r.ERR || r.NVAL, r.IN || r.PRI || r.RDHUP, r.OUT);
  }

  lemma DispatchedClosesOnce(c: nat, r: Revents)
    ensures forall i :: 0 <= i < |Dispatched(c, r)| ==> Dispatched(c, r)[i].c == c
    ensures !ClosesTwice(r) <==>
      forall i, j :: 0 <= i < j < |Dispatched(c, r)| ==> !(Closing(Dispatched(c, r)[i]) && Closing(Dispatched(c, r)[j]))
  {
    var d := Dispatched(c, r);
    if ClosesTwice(r) {
      assert d[0] == OnClose(c) && d[if r.ERR || r.NVAL then 2 else 1] == OnRead(c);
    }
  }

  lemma {:induction false} AllCloseOnce(events: seq<(nat, Revents)>, i: nat, j: nat)
    requires forall e :: 0 <= e < |events| ==> !ClosesTwice(events[e].1)
    requires forall e, e' :: 0 <= e < e' < |events| ==> events[e].0 != events[e'].0
    requires i < j < |AllDispatched(events)| && Closing(AllDispatched(events)[i]) && Closing(AllDispatched(events)[j])
    ensures AllDispatched(events)[i].c != AllDispatched(events)[j].c
  {
    var d, rest := Dispatched(events[0].0, events[0].1), AllDispatched(events[1..]);
    DispatchedClosesOnce(events[0].0, events[0].1);
    if i >= |d| {
      AllCloseOnce(events[1..], i - |d|, j - |d|);
    } else if j >= |d| {
      var e := DispatchedOk(events[1..], j - |d|);
      assert events[1..][e] == events[e + 1];
    }
  }

  lemma PollKeeps(w: World, l: nat, events: seq<(nat, Revents)>)
    requires Inv(w, Nothing) && Enabled(w, PollReturns(l, events))
    ensures Inv(w.(todo := w.todo[l := AllDispatched(events)]), Nothing)
  {
    PollTodosOk(w, l, events);
    TodoKeepsTasks(w, w.todo[l := AllDispatched(events)]);
  }

  lemma TodoKeepsTasks(w: World, todo: seq<seq<Handler>>)
    requires TasksOk(w, Nothing)
    ensures TasksOk(w.(todo := todo), Nothing)
  {
    var w' := w.(todo := todo);
    forall t: Task | t.c < |w'.conns| && Home(w', t) < |w'.queues| ensures TaskOk(w', Nothing, t) {
      assert TaskOk(w, Nothing, t);
    }
  }

  lemma PollTodosOk(w: World, l: nat, events: seq<(nat, Revents)>)
    requires ConnsOk(w) && TodosOk(w) && Enabled(w, PollReturns(l, events))
    ensures TodosOk(w.(todo := w.todo[l := AllDispatched(events)]))
  {
    var w' := w.(todo := w.todo[l := AllDispatched(events)]);
    forall i | 0 <= i < |w'.todo| ensures TodoOk(w', i) {
      if i == l { PollTodoOk(w, l, events, w'); } else { assert TodoOk(w, i); }
    }
  }

  lemma PollTodoOk(w: World, l: nat, events: seq<(nat, Revents)>, w': World)
    requires ConnsOk(w) && Enabled(w, PollReturns(l, events)) && w' == w.(todo := w.todo[l := AllDispatched(events)])
    ensures TodoOk(w', l)
  {
    forall i | 0 <= i < |w'.todo[l]|
      ensures w'.todo[l][i].c < |w.conns| && w.conns[w'.todo[l][i].c].loop == l && w.conns[w'.todo[l][i].c].Open()
    {
      var e := DispatchedOk(events, i);
    }
    forall i, j | 0 <= i < j < |w'.todo[l]| && Closing(w'.todo[l][i]) && Closing(w'.todo[l][j])
      ensures w'.todo[l][i].c != w'.todo[l][j].c
    {
      AllCloseOnce(events, i, j);
    }
  }

  /** Every race-free step of every thread keeps the invariant. */
  lemma StepKeeps(w: World, step: Step, w': World)
    requires Inv(w, Nothing) && Next(w, step, w') && RaceFree(w, step)
    ensures Inv(w', Nothing)
  {
    match step
    case Accept(l) => NewConnectionKeeps(w, l);
    case RunFunctor(l) => RunFunctorKeeps(w, l);
    case PollReturns(l, events) => PollKeeps(w, l, events);
    case CallHandler(l, n, drained) => CallHandlerKeeps(w, l, n, drained);
    case CallTest(c, force) => assert TodoOk(w, w.conns[c].loop); ChangeKeeps(w, Nothing, w', c, Nothing);
    case CallStore(c, force) => CallStoreKeeps(w, c, force, w');
    case CallQueue(c) => CallQueueKeeps(w, c, w');
    case SendInLoop(c) => if w' != w { AdjustKeeps(w, c, w.conns[c].(writing := true)); }
    case StartRead(c) => AdjustKeeps(w, c, w.conns[c].(reading := true, added := true));
    case StopRead(c) => AdjustKeeps(w, c, w.conns[c].(reading := false, added := true));
  }

  // ---------------------------------------------------------------- whole runs

  /** ws is a run of the server from its start, taking the given steps. */
  ghost predicate Run(loops: nat, ws: seq<World>, steps: seq<Step>) {
    && |ws| == |steps| + 1 && loops > 0 && ws[0] == Start(loops)
    && forall i :: 0 <= i < |steps| ==> Next(ws[i], steps[i], ws[i + 1])
  }

  ghost predicate RaceFreeRun(ws: seq<World>, steps: seq<Step>)
    requires |ws| == |steps| + 1
  {
    forall i :: 0 <= i < |steps| ==> RaceFree(ws[i], steps[i])
  }

  lemma StartHolds(loops: nat)
    requires loops > 0
    ensures Inv(Start(loops), Nothing)
  {
    forall l | 0 <= l < loops ensures TodoOk(Start(loops), l) { assert Start(loops).todo[l] == []; }
  }

  lemma {:induction false} RunKeeps(loops: nat, ws: seq<World>, steps: seq<Step>, i: nat)
    requires Run(loops, ws, steps) && RaceFreeRun(ws, steps) && i <= |steps|
    ensures Inv(ws[i], Nothing)
  {
    if i == 0 {
      StartHolds(loops);
    } else {
      RunKeeps(loops, ws, steps, i - 1);
      StepKeeps(ws[i - 1], steps[i - 1], ws[i]);
    }
  }

  /** In every race-free interleaving, each accepted connection goes through UP, DOWN, erasure from the map and
      connectDestroyed at most once and in that order; no assert of the source fails; the map holds exactly the
      connections that have not been erased; and a destroyed connection has no event enabled and is not polled. */
  lemma LifeInOrder(loops: nat, ws: seq<World>, steps: seq<Step>, i: nat, c: nat)
    requires Run(loops, ws, steps) && RaceFreeRun(ws, steps) && i <= |steps| && c < |ws[i].conns|
    ensures !ws[i].failed && ws[i].conns[c].log <= LIFE
    ensures c in ws[i].listed <==> Erased !in ws[i].conns[c].log
    ensures Down in ws[i].conns[c].log ==>
      ws[i].conns[c].phase == Disconnected && !ws[i].conns[c].reading && !ws[i].conns[c].writing
    ensures ws[i].conns[c].log == LIFE ==> !ws[i].conns[c].added
  {
    RunKeeps(loops, ws, steps, i);
    var log := ws[i].conns[c].log;
    assert log == LIFE[..|log|];
    assert |log| >= 2 ==> log[1] == Down;
    assert |log| >= 3 ==> log[2] == Erased;
  }

  /** Nothing is forgotten: when every queue has drained, each connection is up or has been taken down,
      erased and destroyed. */
  lemma DrainedIsComplete(loops: nat, ws: seq<World>, steps: seq<Step>, i: nat, c: nat)
    requires Run(loops, ws, steps) && RaceFreeRun(ws, steps) && i <= |steps| && c < |ws[i].conns|
    requires forall l :: 0 <= l < |ws[i].queues| ==> ws[i].queues[l] == []
    ensures (ws[i].conns[c].Open() && ws[i].conns[c].log == [Up]) || ws[i].conns[c].log == LIFE
  {
    RunKeeps(loops, ws, steps, i);
    var w := ws[i];
    assert TaskOk(w, Nothing, Establish(c)) && TaskOk(w, Nothing, Remove(c)) && TaskOk(w, Nothing, Destroy(c));
    assert w.conns[c].log == LIFE[..|w.conns[c].log|];
  }

  // ---------------------------------------------------------------- what the two exclusions cost

  /** The store of a racing shutdown or forceClose keeps the invariant exactly when the connection is not yet closed. */
  lemma StoreIsSafeIffOpen(w: World, c: nat, force: bool, w': World)
    requires Inv(w, Nothing) && Next(w, CallStore(c, force), w')
    ensures Inv(w', Nothing) <==> w.conns[c].phase != Disconnected
  {
    if w.conns[c].phase != Disconnected {
      CallStoreKeeps(w, c, force, w');
    } else {
      assert !ConnOk(w'.conns[c]);
    }
  }

  const READABLE := Revents(true, false, false, false, false, false, false)

  /** A run on one loop in which forceClose tests state_ before the peer closes and stores after it. */
  ghost function RaceStep(i: nat): Step {
    if i == 0 then Accept(0)
    else if i == 1 then CallTest(0, true)
    else if i == 2 then PollReturns(0, [(0, READABLE)])
    else if i == 3 then CallHandler(0, 0, false)
    else if i == 4 then CallStore(0, true)
    else if i == 5 then CallQueue(0)
    else RunFunctor(0)
  }

  ghost function RaceConn(i: nat): Conn {
    if i <= 3 then Conn(0, Connected, true, false, true, [Up])
    else if i == 4 then Conn(0, Disconnected, false, false, true, [Up, Down, Erased])
    else if i <= 6 then Conn(0, Disconnecting, false, false, true, [Up, Down, Erased])
    else if i == 7 then Conn(0, Disconnecting, false, false, false, [Up, Down, Erased, Destroyed])
    else Conn(0, Disconnected, false, false, false, [Up, Down, Erased, Destroyed, Down, Erased])
  }

  ghost function RaceQueue(i: nat): seq<Task> {
    if i == 4 || i == 5 || i == 8 then [Destroy(0)]
    else if i == 6 then [Destroy(0), ForceClose(0)]
    else if i == 7 then [ForceClose(0)]
    else []
  }

  ghost function RaceWorld(i: nat): World {
    if i == 0 then World([], {}, [[]], [[]], multiset{}, multiset{}, false)
    else World(
      [RaceConn(i)],
      if i <= 3 then {0} else {},
      [RaceQueue(i)],
      [if i == 3 then [OnRead(0)] else []],
      if 2 <= i <= 4 then multiset{(0, true)} else multiset{},
      if i == 5 then multiset{0} else multiset{},
      i == 8)
  }

  lemma RaceEvents()
    ensures AllDispatched([(0, READABLE)]) == [OnRead(0)]
  {
    assert [(0, READABLE)][1..] == [];
    assert Dispatched(0, READABLE) == [OnRead(0)];
  }

  lemma RaceOpens(i: nat)
    requires i < 3
    ensures Next(RaceWorld(i), RaceStep(i), RaceWorld(i + 1))
  {
    RaceEvents();
    var w, w' := RaceWorld(i), RaceWorld(i + 1);
    if i == 0 {
      var n: seq<Mark> := [];
      assert n + [Up] == [Up];
      assert NewConnection(w, 0).conns == w'.conns;
    } else if i == 2 {
      assert w.todo[0 := [OnRead(0)]] == w'.todo;
    }
  }

  lemma RaceCloses()
    ensures Next(RaceWorld(3), RaceStep(3), RaceWorld(4))
  {
    var w, w' := RaceWorld(3), RaceWorld(4);
    assert w.todo[0][1..] == [];
    var r := HandleClose(w.(todo := w.todo[0 := []]), 0);
    assert w.conns[0].log + [Down] + [Erased] == [Up, Down, Erased] && w.queues[0] + [Destroy(0)] == [Destroy(0)];
    assert r.conns == w'.conns && r.queues == w'.queues && r.todo == w'.todo && r.listed == w'.listed;
  }

  lemma RaceStores()
    ensures Next(RaceWorld(4), RaceStep(4), RaceWorld(5))
  {
    var w, w' := RaceWorld(4), RaceWorld(5);
    assert [w.conns[0].(phase := Disconnecting)] == w'.conns;
  }

  lemma RaceQueues()
    ensures Next(RaceWorld(5), RaceStep(5), RaceWorld(6))
  {
    var w, w' := RaceWorld(5), RaceWorld(6);
    assert w.queues[0] + [ForceClose(0)] == [Destroy(0), ForceClose(0)];
    assert w.queues[0 := w.queues[0] + [ForceClose(0)]] == w'.queues;
  }

  lemma RaceEnds(i: nat)
    requires 6 <= i <= 7
    ensures Next(RaceWorld(i), RaceStep(i), RaceWorld(i + 1))
  {
    var w, w' := RaceWorld(i), RaceWorld(i + 1);
    var t, w1 := w.queues[0][0], w.(queues := w.queues[0 := w.queues[0][1..]]);
    assert w.queues[0][1..] == if i == 6 then [ForceClose(0)] else [];
    var r := RunTask(w1, t);
    assert i == 6 ==> w.conns[0].log + [Destroyed] == [Up, Down, Erased, Destroyed];
    assert i == 7 ==> w.conns[0].log + [Down] + [Erased] == [Up, Down, Erased, Destroyed, Down, Erased];
    assert i == 7 ==> w1.queues[0] + [Destroy(0)] == [Destroy(0)];
    assert r.conns == w'.conns && r.queues == w'.queues;
  }

  lemma RaceNext(i: nat)
    requires i < 8
    ensures Next(RaceWorld(i), RaceStep(i), RaceWorld(i + 1))
  {
    if i < 3 {
      RaceOpens(i);
    } else if i == 3 {
      RaceCloses();
    } else if i == 4 {
      RaceStores();
    } else if i == 5 {
      RaceQueues();
    } else {
      RaceEnds(i);
    }
  }

  /** A forceClose that races with the peer's close makes the connection go DOWN twice and fails the erase assert. */
  lemma RacingForceCloseFails() returns (ws: seq<World>, steps: seq<Step>)
    ensures Run(1, ws, steps) && !RaceFreeRun(ws, steps)
    ensures ws[|steps|].failed && |ws[|steps|].conns| == 1
    ensures ws[|steps|].conns[0].log == [Up, Down, Erased, Destroyed, Down, Erased]
  {
    ws, steps := seq(9, i requires i >= 0 => RaceWorld(i)), seq(8, i requires i >= 0 => RaceStep(i));
    RaceRuns(ws, steps);
    RaceIsOne();
    assert !RaceFree(ws[4], steps[4]);
  }

  lemma RaceRuns(ws: seq<World>, steps: seq<Step>)
    requires |ws| == 9 && forall i: nat :: i < 9 ==> ws[i] == RaceWorld(i)
    requires |steps| == 8 && forall i: nat :: i < 8 ==> steps[i] == RaceStep(i)
    ensures Run(1, ws, steps)
  {
    RaceStarts();
    forall i: nat | i < 8 ensures Next(ws[i], steps[i], ws[i + 1]) { RaceNext(i); }
  }

  lemma RaceStarts()
    ensures RaceWorld(0) == Start(1)
  {
    assert Start(1).queues == [[]] && Start(1).todo == [[]];
  }

  lemma RaceIsOne()
    ensures !RaceFree(RaceWorld(4), RaceStep(4))
    ensures RaceWorld(8).failed && |RaceWorld(8).conns| == 1
    ensures RaceWorld(8).conns[0].log == [Up, Down, Erased, Destroyed, Down, Erased]
  {
  }

  /** An event set with HUP, without IN and with PRI or RDHUP closes an open connection a second time when the
      read finds the end of the stream. */
  lemma DoubleCloseFails(w: World, c: nat, drained: bool)
    requires Inv(w, Nothing) && c < |w.conns| && w.conns[c].Open()
    ensures Known(w, c) && Known(RunHandler(w, OnClose(c), 0, drained), c)
    ensures RunHandler(RunHandler(w, OnClose(c), 0, drained), OnRead(c), 0, drained).failed
  {
  }

  /** The server's destructor runs connectDestroyed on open connections: the user is told and the channel removed only
      if shutdown has not been called; after shutdown the user is not told, and the assert of the removal fails exactly
      if the channel still has an interest. */
  lemma DestroyedWhileOpen(w: World, c: nat)
    requires Inv(w, Nothing) && c < |w.conns| && w.conns[c].Open()
    ensures Known(w, c)
    ensures var k, w' := w.conns[c], ConnectDestroyed(w, c);
      && w'.conns[c].log == (if k.phase == Connected then [Up, Down, Destroyed] else [Up, Destroyed])
      && (w'.failed <==> k.phase == Disconnecting && (k.reading || k.writing))
      && !w'.conns[c].added
  {
    assert ConnOk(w.conns[c]) && w.conns[c].log == [Up];
  }

  /** handleWrite turns write interest off exactly when it has emptied the buffer, and does nothing else here. */
  lemma WriteInterestEnds(w: World, c: nat, n: int, drained: bool)
    requires Inv(w, Nothing) && c < |w.conns|
    ensures Known(w, c)
    ensures var w' := RunHandler(w, OnWrite(c), n, drained);
      && (w'.conns[c].writing <==> w.conns[c].writing && !drained)
      && w' == SetConn(w, c, w.conns[c].(writing := w'.conns[c].writing))
  {
    assert w.conns[c := w.conns[c]] == w.conns;
  }

  /** startRead keeps the invariant exactly when the connection is open. */
  lemma StartReadIsSafeIffOpen(w: World, c: nat)
    requires Inv(w, Nothing) && c < |w.conns|
    ensures Inv(WithReading(w, c, true), Nothing) <==> w.conns[c].Open()
  {
    if w.conns[c].Open() {
      AdjustKeeps(w, c, w.conns[c].(reading := true, added := true));
    } else {
      assert !ConnOk(WithReading(w, c, true).conns[c]);
    }
  }

  /** startRead between the close and connectDestroyed re-enables reading, and the channel's removal then fails its
      assert. */
  lemma LateStartReadFails(w: World, c: nat)
    requires Inv(w, Nothing) && c < |w.conns| && w.conns[c].phase == Disconnected && Destroyed !in w.conns[c].log
    ensures Known(w, c) && Known(WithReading(w, c, true), c)
    ensures ConnectDestroyed(WithReading(w, c, true), c).failed
  {
  }

  /** stopRead keeps the invariant exactly from connectEstablished to connectDestroyed. */
  lemma StopReadIsSafeIffAdded(w: World, c: nat)
    requires Inv(w, Nothing) && c < |w.conns|
    ensures Inv(WithReading(w, c, false), Nothing) <==> w.conns[c].added
  {
    if w.conns[c].added {
      AdjustKeeps(w, c, w.conns[c].(reading := false));
    } else {
      assert !ConnOk(WithReading(w, c, false).conns[c]);
    }
  }

  /** The assert of the channel's destructor. */
  predicate Destructible(k: Conn) { !k.added }

  /** stopRead after connectDestroyed puts the channel back into the poller, so its destructor's assert fails, which
      holds without it. */
  lemma LateStopReadFails(w: World, c: nat)
    requires Inv(w, Nothing) && c < |w.conns| && Destroyed in w.conns[c].log
    ensures Destructible(w.conns[c]) && !Destructible(WithReading(w, c, false).conns[c])
  {
    assert w.conns[c].log == LIFE[..|w.conns[c].log|];
  }
}
