/** Streams of requests in the wire format: which of them keep the connection, and what each is answered. */
module HttpStream {
  import opened ByteStrings
  import opened HttpParser
  import HttpFormat
  import opened HttpDriver

  /** What a client writes: a request line with what the expression captures from it, headers and a body. */
  datatype Message = Message(
    line: Bytes,
    verb: Bytes,
    path: Bytes,
    params: seq<HttpFormat.Pair>,
    version: Bytes,
    headers: seq<HttpFormat.Pair>,
    body: Bytes)
  {
    function Wire(): Bytes { HttpFormat.Wire(line, headers, body) }

    function Headers(): map<Bytes, Bytes> { HttpFormat.Stored(map[], headers) }

    /** The request that is meant. */
    function Request(): Request {
      HttpParser.Request(ToUpper(verb), path, version, body, Headers(), HttpFormat.Stored(map[], params))
    }

    ghost predicate Proper(e: Expression) {
      && HttpFormat.Written(e, line, verb, path, params, version)
      && (forall h :: h in headers ==> HttpFormat.PlainHeader(h))
      && (if "Content-Length" in Headers()
          then Headers()["Content-Length"] == Decimal(|body|) && |body| < 0x1_0000_0000_0000_0000
          else body == [])
    }

    /** The last Connection header says keep-alive. */
    predicate Stays() { "Connection" in Headers() && Headers()["Connection"] == "keep-alive" }
  }

  function Wires(ms: seq<Message>): seq<Bytes> { if ms == [] then [] else [ms[0].Wire()] + Wires(ms[1..]) }

  function RepliesDue(ms: seq<Message>): seq<Reply> {
    if ms == [] then [] else [Reply(ms[0].Request(), 200)] + RepliesDue(ms[1..])
  }

  ghost predicate AllProper(e: Expression, ms: seq<Message>) { forall m :: m in ms ==> m.Proper(e) }

  predicate AllStay(ms: seq<Message>) { forall m :: m in ms ==> m.Stays() }

  lemma LiteralNames()
    ensures "Connection" == CONNECTION && "keep-alive" == KEEP_ALIVE && "Content-Length" == CONTENT_LENGTH
  {
  }

  lemma MessageReads(e: Expression, m: Message)
    requires m.Proper(e)
    ensures Complete(e, m.Wire()) && Recv(e, NewContext(), m.Wire()).context.request == m.Request()
  {
    LiteralNames();
    HttpFormat.WrittenIsRead(e, m.line, m.verb, m.path, m.params, m.version, m.headers, m.body, []);
    assert m.Wire() + [] == m.Wire();
  }

  lemma {:induction false} MessagesRead(e: Expression, ms: seq<Message>)
    requires AllProper(e, ms)
    ensures AllComplete(e, Wires(ms)) && RepliesTo(e, Wires(ms)) == RepliesDue(ms)
    decreases |ms|
  {
    if ms != [] {
      assert ms[0] in ms && forall m :: m in ms[1..] ==> m in ms;
      MessageReads(e, ms[0]);
      MessagesRead(e, ms[1..]);
      assert Wires(ms)[1..] == Wires(ms[1..]);
    }
  }

  lemma OneStaysIff(m: Message)
    ensures Closing(m.Request()) <==> !m.Stays()
  {
    LiteralNames();
  }

  lemma FirstStays(ms: seq<Message>)
    requires ms != []
    ensures AllStay(ms) <==> ms[0].Stays() && AllStay(ms[1..])
  {
    assert ms[0] in ms && forall m :: m in ms <==> m == ms[0] || m in ms[1..];
  }

  lemma {:induction false} StayIff(ms: seq<Message>)
    ensures KeepAlive(RepliesDue(ms)) <==> AllStay(ms)
    decreases |ms|
  {
    if ms != [] {
      StayIff(ms[1..]);
      OneStaysIff(ms[0]);
      FirstStays(ms);
      FirstKept(Reply(ms[0].Request(), 200), RepliesDue(ms[1..]));
    }
  }

  /** Requests that have arrived are all answered, each as what was written, and the connection stays open exactly when
      the headers of every one say keep-alive. */
  lemma StaysIffAsked(e: Expression, ms: seq<Message>)
    requires AllProper(e, ms)
    ensures var r := OnMessage(e, NewConn().(inb := Concat(Wires(ms))));
      r.replies == RepliesDue(ms) && (r.state == Connected <==> AllStay(ms))
  {
    var s := NewConn().(inb := Concat(Wires(ms)));
    MessagesRead(e, ms);
    EmptyWaits(e, Restarted());
    OneReplyEach(e, Wires(ms), []);
    assert Concat(Wires(ms)) + [] == Concat(Wires(ms));
    StayIff(ms);
    OnMessageAnswers(e, s);
    ConnectedIffKept(e, s);
  }

  /** A stream of requests that say keep-alive, followed by one that has not ended, however it is cut into arrivals and
      whenever responses drain: one response to each, in order, and the connection stays open. */
  lemma KeptStream(e: Expression, ms: seq<Message>, tail: Bytes, evs: seq<Event>)
    requires AllProper(e, ms) && AllStay(ms) && Answers(e, Restarted(), tail) == ([], false)
    requires Arrived(evs) == Concat(Wires(ms)) + tail
    ensures Run(e, NewConn(), evs).replies == RepliesDue(ms) && Run(e, NewConn(), evs).state == Connected
  {
    MessagesRead(e, ms);
    StayIff(ms);
    KeepAliveStream(e, Wires(ms), tail, evs);
  }

  /** A request that does not say keep-alive is answered, and the connection is released once the response has been
      sent, not before. */
  lemma ClosesWhenSent(e: Expression, m: Message)
    requires m.Proper(e) && !m.Stays()
    ensures var r := Happen(e, NewConn(), Arrive(m.Wire()));
      && r.replies == [Reply(m.Request(), 200)] && r.state == Disconnecting
      && Happen(e, r, Drained).state == Disconnected
  {
    var r := OneAnswered(e, m);
    OnMessageAccounts(e, NewConn().(inb := m.Wire()), []);
    DrainedReleases(e, r);
  }

  /** One request that has arrived. */
  lemma OneAnswered(e: Expression, m: Message) returns (r: Conn)
    requires m.Proper(e)
    ensures r == Happen(e, NewConn(), Arrive(m.Wire())) == OnMessage(e, NewConn().(inb := m.Wire()))
    ensures r.replies == [Reply(m.Request(), 200)] && (r.state == Connected <==> m.Stays())
  {
    var b := m.Wire();
    assert [] + b == b;
    r := Happen(e, NewConn(), Arrive(b));
    OneMessage(m);
    StaysIffAsked(e, [m]);
    FirstStays([m]);
  }

  lemma OneMessage(m: Message)
    ensures Concat(Wires([m])) == m.Wire() && RepliesDue([m]) == [Reply(m.Request(), 200)]
  {
    assert [m][1..] == [] && Wires([m]) == [m.Wire()];
    assert [m.Wire()][1..] == [] && Concat([m.Wire()]) == m.Wire() + [] == m.Wire();
  }

  lemma DrainedReleases(e: Expression, s: Conn)
    ensures Happen(e, s, Drained).state == if s.state == Connected then Connected else Disconnected
  {
  }

  /** A request that is refused is answered once with its status; what follows it is thrown away, and the connection is
      released once the response has been sent. */
  lemma RefusedIsAnswered(e: Expression, b: Bytes)
    requires Recv(e, NewContext(), b).context.state == Error
    ensures var r := Happen(e, NewConn(), Arrive(b));
      && |r.replies| == 1 && r.replies[0].status == Recv(e, NewContext(), b).context.status
      && r.inb == [] && r.state == Disconnecting && Happen(e, r, Drained).state == Disconnected
  {
    var s := NewConn().(inb := b);
    var r := OnMessage(e, s);
    assert [] + b == b;
    FailureDue(e, b);
    AccountFailure(e, s, []);
    OnMessageAnswers(e, s);
    DrainedReleases(e, r);
  }

  lemma FailureDue(e: Expression, b: Bytes)
    requires Recv(e, NewContext(), b).context.state == Error
    ensures b != [] && |Answers(e, Restarted(), b).0| == 1
    ensures Answers(e, Restarted(), b).0[0].status == Recv(e, NewContext(), b).context.status
  {
    EmptyWaits(e, Restarted());
  }

  /** A request whose line is too long is answered 414, one whose line is bad 400. */
  lemma BadLineAnswered(e: Expression, line: Bytes, rest: Bytes)
    requires HttpFormat.IsLine(line) && (|line| > 8192 || e(line).None?)
    ensures var r := Happen(e, NewConn(), Arrive(line + rest));
      |r.replies| == 1 && r.replies[0].status == (if |line| > 8192 then 414 else 400) && r.state == Disconnecting
  {
    HttpFormat.BadLineFails(e, line, rest);
    RefusedIsAnswered(e, line + rest);
  }
}
