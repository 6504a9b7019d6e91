/** HttpServer::OnMessage over a connection's input buffer, re-entered by ShutDownInLoop, as functions on values. */
module HttpDriver {
  import opened ByteStrings
  import opened ByteBuffer
  import opened HttpParser

  /** Between calls the parser waits inside a request. */
  ghost predicate Waiting(c: Context) {
    Sound(c) && c.state != Over && c.state != Error && c.status == 200
  }

  type Parser = c: Context | Waiting(c) ghost witness NewContext()

  function Restarted(): (c: Parser) { NewContext() }

  datatype ConnState = Connected | Disconnecting | Disconnected

  /** One response written: the request it answers, and the status the context had. */
  datatype Reply = Reply(request: Request, status: int)

  /** inb: the unread input; replies: all responses written so far; outEmpty: no response byte waits to be sent. */
  datatype Conn = Conn(context: Parser, inb: Bytes, replies: seq<Reply>, outEmpty: bool, state: ConnState)

  const CONNECTION: Bytes := ['C', 'o', 'n', 'n', 'e', 'c', 't', 'i', 'o', 'n']
  const KEEP_ALIVE: Bytes := ['k', 'e', 'e', 'p', '-', 'a', 'l', 'i', 'v', 'e']

  /** Close: the request, and so its response, asks for a short connection. */
  predicate Closing(r: Request) { !(CONNECTION in r.headers && r.headers[CONNECTION] == KEEP_ALIVE) }

  /** WriteReponse: a response is never empty; on a released connection it is dropped. */
  function Write(s: Conn, reply: Reply): Conn {
    if s.state == Disconnected then s else s.(replies := s.replies + [reply], outEmpty := false)
  }

  /** A call that completes a request consumes something. */
  lemma OverConsumes(e: Expression, c: Parser, b: Bytes)
    ensures Recv(e, c, b).context.state == Over ==> |Recv(e, c, b).rest| < |b|
    ensures |Recv(e, c, b).rest| <= |b|
  {
    var p1 := RecvLine(e, c, b);
    LineConsumes(e, c, b);
    HeadConsumes(p1.context, p1.rest);
    var p2 := RecvHead(p1.context, p1.rest);
    BodyConsumes(p2.context, p2.rest);
    if c.state == Body { assert Missing(c) > 0; }
  }

  lemma LineConsumes(e: Expression, c: Parser, b: Bytes)
    ensures var p := RecvLine(e, c, b);
      |p.rest| <= |b| && p.context.state != Over && (c.state == Line && p.context.state == Head ==> |p.rest| < |b|)
  {
  }

  lemma BodyConsumes(c: Context, b: Bytes)
    ensures var p := RecvBody(c, b);
      |p.rest| <= |b| &&
        (p.context.state == Over && c.state != Over ==>
          c.state == Body && (Missing(c) > 0 ==> ContentLength(c.request) == 0 || |p.rest| < |b|))
  {
  }

  lemma {:induction false} HeadConsumes(c: Context, b: Bytes)
    ensures var p := RecvHead(c, b);
      |p.rest| <= |b| && (c.state == Head && p.context.state == Body ==> |p.rest| < |b|) &&
        (c.state != Over ==> p.context.state != Over)
    decreases |b|
  {
    var n := LineLength(b);
    if c.state == Head && 0 < n <= MAX_LINE && !Blank(b[..n]) { HeadConsumes(ParseHead(c, b[..n]), b[n..]); }
  }

  /** The status tells a failed parse. */
  lemma StatusTells(e: Expression, c: Parser, b: Bytes)
    ensures Telling(Recv(e, c, b).context)
  {
    var p1 := RecvLine(e, c, b);
    var p2 := RecvHead(p1.context, p1.rest);
    LineStatus(e, c, b);
    HeadStatus(p1.context, p1.rest);
    BodyStatus(p2.context, p2.rest);
  }

  ghost predicate Telling(c: Context) { if c.state == Error then c.status >= 400 else c.status == 200 }

  lemma LineStatus(e: Expression, c: Parser, b: Bytes)
    ensures Telling(RecvLine(e, c, b).context)
  {
  }

  lemma BodyStatus(c: Context, b: Bytes)
    requires Telling(c)
    ensures Telling(RecvBody(c, b).context)
  {
  }

  lemma {:induction false} HeadStatus(c: Context, b: Bytes)
    requires Telling(c)
    ensures Telling(RecvHead(c, b).context)
    decreases |b|
  {
    var n := LineLength(b);
    if c.state == Head && 0 < n <= MAX_LINE && !Blank(b[..n]) { HeadStatus(ParseHead(c, b[..n]), b[n..]); }
  }

  // ---------------------------------------------------------------- the driver

  /** The parse of some input by a waiting parser, with what the driver relies on. */
  ghost function Next(e: Expression, c: Parser, b: Bytes): (p: Parse)
    ensures Sound(p.context) && |p.rest| <= |b|
    ensures if p.context.state == Error then p.context.status >= 400 else p.context.status == 200
    ensures p.context.state == Over ==> |p.rest| < |b|
  {
    RecvKeeps(e, c, b);
    OverConsumes(e, c, b);
    StatusTells(e, c, b);
    Recv(e, c, b)
  }

  /** The response is written, the context is reset, and rest is what is left to read. */
  function Answered(s: Conn, p: Parse, rest: Bytes): Conn {
    Write(s, Reply(p.context.request, p.context.status)).(context := Restarted(), inb := rest)
  }

  ghost function OnMessage(e: Expression, s: Conn): (r: Conn)
    ensures |r.inb| <= |s.inb|
    decreases |s.inb|, 1
  {
    if s.inb == [] then s
    else
      var p := Next(e, s.context, s.inb);
      if p.context.status >= 400 then ShutDown(e, Answered(s, p, []))
      else if p.context.state != Over then s.(context := p.context, inb := p.rest)
      else
        var s1 := Answered(s, p, p.rest);
        OnMessage(e, if Closing(p.context.request) then ShutDown(e, s1) else s1)
  }

  ghost function ShutDown(e: Expression, s: Conn): (r: Conn)
    ensures |r.inb| <= |s.inb|
    decreases |s.inb|, 2
  {
    var s1 := s.(state := Disconnecting);
    var s2 := if s1.inb != [] then OnMessage(e, s1) else s1;
    if s2.outEmpty then s2.(state := Disconnected) else s2
  }

  // ---------------------------------------------------------------- what a stream deserves

  /** The responses a byte stream deserves from a waiting parser, and whether it ends in a failed parse. */
  ghost function Answers(e: Expression, c: Parser, b: Bytes): (seq<Reply>, bool)
    decreases |b|
  {
    var p := Next(e, c, b);
    var reply := Reply(p.context.request, p.context.status);
    if p.context.state == Error then ([reply], true)
    else if p.context.state != Over then ([], false)
    else var (replies, failed) := Answers(e, Restarted(), p.rest); ([reply] + replies, failed)
  }

  /** More input after a parse that waits, completes or fails. */
  lemma NextMore(e: Expression, c: Parser, b: Bytes, x: Bytes)
    ensures var p := Next(e, c, b);
      match p.context.state
      case Error => Next(e, c, b + x).context == p.context
      case Over => Next(e, c, b + x) == Parse(p.context, p.rest + x)
      case _ => Same(Next(e, p.context, p.rest + x), Next(e, c, b + x))
  {
    TwoDeliveries(e, c, b, x);
  }

  lemma AnswersMore(e: Expression, c: Parser, b: Bytes, x: Bytes)
    ensures var p := Next(e, c, b);
      var reply := Reply(p.context.request, p.context.status);
      match p.context.state
      case Error => Answers(e, c, b + x) == ([reply], true)
      case Over =>
        var (replies, failed) := Answers(e, Restarted(), p.rest + x);
        Answers(e, c, b + x) == ([reply] + replies, failed)
      case _ => Answers(e, c, b + x) == Answers(e, p.context, p.rest + x)
  {
    NextMore(e, c, b, x);
  }

  /** r has written what s had written and all that s's input deserves; if that ended in a failure nothing is left of
      the input, and otherwise what r deserves for more input is what s deserved and has not got. */
  ghost predicate Accounted(e: Expression, s: Conn, r: Conn, x: Bytes)
  {
    var (due, failed) := Answers(e, s.context, s.inb + x);
    if Answers(e, s.context, s.inb).1 then failed && r.replies == s.replies + due && r.inb == []
    else
      var (left, failedLater) := Answers(e, r.context, r.inb + x);
      s.replies + due == r.replies + left && failed == failedLater
  }

  /** Once the first complete request is answered, the same responses are due in all. */
  lemma FirstDue(e: Expression, s: Conn, x: Bytes)
    requires s.state != Disconnected
    requires Next(e, s.context, s.inb).context.state == Over
    ensures var p := Next(e, s.context, s.inb);
      && s.replies + Answers(e, s.context, s.inb + x).0 ==
        Answered(s, p, p.rest).replies + Answers(e, Restarted(), p.rest + x).0
      && Answers(e, s.context, s.inb + x).1 == Answers(e, Restarted(), p.rest + x).1
  {
    AnswersMore(e, s.context, s.inb, x);
    var p := Next(e, s.context, s.inb);
    Regroup(s.replies, [Reply(p.context.request, p.context.status)], Answers(e, Restarted(), p.rest + x).0);
  }

  /** Accounting after the first complete request is accounting. */
  lemma AccountFirst(e: Expression, s: Conn, r: Conn, x: Bytes)
    requires s.state != Disconnected
    requires Next(e, s.context, s.inb).context.state == Over
    requires var p := Next(e, s.context, s.inb); Accounted(e, Answered(s, p, p.rest), r, x)
    ensures Accounted(e, s, r, x)
  {
    FirstDue(e, s, x);
    FirstDue(e, s, []);
    assert s.inb + [] == s.inb && Next(e, s.context, s.inb).rest + [] == Next(e, s.context, s.inb).rest;
  }

  lemma AccountChain(e: Expression, s: Conn, m: Conn, r: Conn, x: Bytes)
    requires Accounted(e, s, m, x) && Accounted(e, s, m, []) && Accounted(e, m, r, x)
    requires m.inb == [] ==> r == m
    ensures Accounted(e, s, r, x)
  {
    assert s.inb + [] == s.inb && m.inb + [] == m.inb;
  }

  /** A failed parse is answered, and the rest of the input thrown away. */
  lemma AccountFailure(e: Expression, s: Conn, x: Bytes)
    requires s.state != Disconnected && s.inb != []
    requires Next(e, s.context, s.inb).context.state == Error
    ensures Accounted(e, s, OnMessage(e, s), x)
    ensures OnMessage(e, s).state == Disconnecting && !OnMessage(e, s).outEmpty && OnMessage(e, s).inb == []
  {
    AnswersMore(e, s.context, s.inb, x);
  }

  lemma AccountWaiting(e: Expression, s: Conn, x: Bytes)
    requires Waiting(Next(e, s.context, s.inb).context)
    ensures var p := Next(e, s.context, s.inb); Accounted(e, s, s.(context := p.context, inb := p.rest), x)
  {
    AnswersMore(e, s.context, s.inb, x);
    WaitsAgain(e, s.context, s.inb);
  }

  /** The driver accounts for all input, and does not release a connection that was not released. */
  lemma {:induction false} OnMessageAccounts(e: Expression, s: Conn, x: Bytes)
    requires s.state != Disconnected
    ensures Accounted(e, s, OnMessage(e, s), x)
    ensures OnMessage(e, s).state != Disconnected && (!s.outEmpty ==> !OnMessage(e, s).outEmpty)
    decreases |s.inb|, 1
  {
    var p := Next(e, s.context, s.inb);
    if s.inb == [] {
      EmptyWaits(e, s.context);
    } else if p.context.state == Error {
      AccountFailure(e, s, x);
    } else if p.context.state == Over {
      OverAccounts(e, s, x);
    } else {
      AccountWaiting(e, s, x);
    }
  }

  lemma {:induction false} OverAccounts(e: Expression, s: Conn, x: Bytes)
    requires s.state != Disconnected && s.inb != []
    requires Next(e, s.context, s.inb).context.state == Over
    ensures Accounted(e, s, OnMessage(e, s), x)
    ensures OnMessage(e, s).state != Disconnected && !OnMessage(e, s).outEmpty
    decreases |s.inb|, 0
  {
    var p := Next(e, s.context, s.inb);
    var s1 := Answered(s, p, p.rest);
    if Closing(p.context.request) {
      ShutDownAccounts(e, s1, x);
      ShutDownAccounts(e, s1, []);
      OnMessageAccounts(e, ShutDown(e, s1), x);
      AccountChain(e, s1, ShutDown(e, s1), OnMessage(e, ShutDown(e, s1)), x);
    } else {
      OnMessageAccounts(e, s1, x);
    }
    AccountFirst(e, s, OnMessage(e, s), x);
  }

  lemma {:induction false} ShutDownAccounts(e: Expression, s: Conn, x: Bytes)
    requires !s.outEmpty
    ensures Accounted(e, s, ShutDown(e, s), x)
    ensures ShutDown(e, s).state != Disconnected && !ShutDown(e, s).outEmpty
    decreases |s.inb|, 2
  {
    if s.inb != [] {
      OnMessageAccounts(e, s.(state := Disconnecting), x);
    } else {
      EmptyWaits(e, s.context);
    }
  }

  /** No input, no answer. */
  lemma EmptyWaits(e: Expression, c: Parser)
    ensures Answers(e, c, []) == ([], false)
  {
  }

  /** A parse that waits is not finished by the bytes it has seen. */
  lemma WaitsAgain(e: Expression, c: Parser, b: Bytes)
    requires Next(e, c, b).context.state != Error && Next(e, c, b).context.state != Over
    ensures Answers(e, c, b) == ([], false)
    ensures Answers(e, Next(e, c, b).context, Next(e, c, b).rest) == ([], false)
  {
    AnswersMore(e, c, b, []);
    assert b + [] == b && Next(e, c, b).rest + [] == Next(e, c, b).rest;
  }

  /** Nothing that has arrived is left to answer. */
  ghost predicate Settled(e: Expression, s: Conn) { Answers(e, s.context, s.inb) == ([], false) }

  lemma {:induction false} OnMessageSettles(e: Expression, s: Conn)
    ensures Settled(e, OnMessage(e, s))
    decreases |s.inb|
  {
    var p := Next(e, s.context, s.inb);
    if s.inb == [] {
      EmptyWaits(e, s.context);
    } else if p.context.state == Error {
      EmptyWaits(e, Restarted());
    } else if p.context.state == Over {
      var s1 := Answered(s, p, p.rest);
      OnMessageSettles(e, if Closing(p.context.request) then ShutDown(e, s1) else s1);
    } else {
      WaitsAgain(e, s.context, s.inb);
    }
  }

  /** One call of the driver answers exactly what its input deserves. */
  lemma OnMessageAnswers(e: Expression, s: Conn)
    requires s.state != Disconnected
    ensures OnMessage(e, s).replies == s.replies + Answers(e, s.context, s.inb).0
  {
    OnMessageAccounts(e, s, []);
    OnMessageSettles(e, s);
    assert s.inb + [] == s.inb && OnMessage(e, s).inb + [] == OnMessage(e, s).inb;
  }

  // ---------------------------------------------------------------- whole streams

  /** Bytes arrive and are handled, or the last waiting response byte is sent, which releases a closing connection. */
  datatype Event = Arrive(bytes: Bytes) | Drained

  ghost function Happen(e: Expression, s: Conn, ev: Event): Conn {
    match ev
    case Arrive(b) => OnMessage(e, s.(inb := s.inb + b))
    case Drained => s.(outEmpty := true, state := if s.state == Disconnecting then Disconnected else s.state)
  }

  ghost function Run(e: Expression, s: Conn, evs: seq<Event>): Conn
    decreases |evs|
  {
    if evs == [] then s else Run(e, Happen(e, s, evs[0]), evs[1..])
  }

  function Brought(ev: Event): Bytes { if ev.Arrive? then ev.bytes else [] }

  ghost function Arrived(evs: seq<Event>): Bytes {
    if evs == [] then [] else Brought(evs[0]) + Arrived(evs[1..])
  }

  /** The connection is not released before the last event. */
  ghost predicate Open(e: Expression, s: Conn, evs: seq<Event>)
    decreases |evs|
  {
    s.state != Disconnected && (evs == [] || Open(e, Happen(e, s, evs[0]), evs[1..]))
  }

  /** The same stream, before and after its next event. */
  lemma EventDue(e: Expression, s: Conn, ev: Event, x: Bytes)
    requires s.state != Disconnected && Settled(e, s)
    ensures var r := Happen(e, s, ev);
      s.replies <= r.replies && Settled(e, r) && Accounted(e, s.(inb := s.inb + Brought(ev)), r, x)
  {
    match ev
    case Arrive(b) =>
      OnMessageAccounts(e, s.(inb := s.inb + b), x);
      OnMessageAnswers(e, s.(inb := s.inb + b));
      OnMessageSettles(e, s.(inb := s.inb + b));
    case Drained =>
      assert s.inb + [] == s.inb;
  }

  /** However a stream is cut into arrivals, and whenever its responses drain, the responses written are those the
      whole stream deserves, in order; a stream with a failed parse gets these up to the failure before anything
      else. */
  lemma {:induction false} StreamAnswered(e: Expression, s: Conn, evs: seq<Event>)
    requires Settled(e, s) && Open(e, s, evs)
    ensures Meets(e, s, s.inb + Arrived(evs), Run(e, s, evs).replies)
    decreases |evs|
  {
    if evs == [] {
      assert s.inb + [] == s.inb;
    } else {
      var r := Happen(e, s, evs[0]);
      EventDue(e, s, evs[0], []);
      StreamAnswered(e, r, evs[1..]);
      RunGrows(e, r, evs[1..]);
      StreamEvent(e, s, evs[0], Arrived(evs[1..]), Run(e, r, evs[1..]).replies);
    }
  }

  lemma StreamEvent(e: Expression, s: Conn, ev: Event, x: Bytes, out: seq<Reply>)
    requires s.state != Disconnected && Settled(e, s)
    requires var r := Happen(e, s, ev); r.replies <= out && Meets(e, r, r.inb + x, out)
    ensures Meets(e, s, s.inb + (Brought(ev) + x), out)
  {
    EventDue(e, s, ev, x);
    StreamStep(e, s.(inb := s.inb + Brought(ev)), Happen(e, s, ev), x, out);
    Regroup(s.inb, Brought(ev), x);
  }

  /** The responses written are those deserved by the unread bytes and all that follow, or begin with these if the
      parse fails. */
  ghost predicate Meets(e: Expression, s: Conn, input: Bytes, out: seq<Reply>) {
    var (due, failed) := Answers(e, s.context, input);
    if failed then s.replies + due <= out else out == s.replies + due
  }

  lemma StreamStep(e: Expression, s: Conn, r: Conn, x: Bytes, out: seq<Reply>)
    requires Accounted(e, s, r, x) && r.replies <= out && Meets(e, r, r.inb + x, out)
    ensures Meets(e, s, s.inb + x, out)
  {
  }

  lemma {:induction false} RunGrows(e: Expression, s: Conn, evs: seq<Event>)
    requires Settled(e, s) && Open(e, s, evs)
    ensures s.replies <= Run(e, s, evs).replies
    decreases |evs|
  {
    if evs != [] {
      EventDue(e, s, evs[0], []);
      RunGrows(e, Happen(e, s, evs[0]), evs[1..]);
    }
  }

  /** The bytes of exactly one request. */
  ghost predicate Complete(e: Expression, r: Bytes) {
    Recv(e, NewContext(), r).context.state == Over && Recv(e, NewContext(), r).rest == []
  }

  /** The responses to complete requests. */
  ghost function RepliesTo(e: Expression, rs: seq<Bytes>): seq<Reply> {
    if rs == [] then [] else [Reply(Recv(e, NewContext(), rs[0]).context.request, 200)] + RepliesTo(e, rs[1..])
  }

  ghost predicate AllComplete(e: Expression, rs: seq<Bytes>) { forall r :: r in rs ==> Complete(e, r) }

  /** A stream of complete requests, followed by one that has not ended, deserves one response to each, in order. */
  lemma {:induction false} OneReplyEach(e: Expression, rs: seq<Bytes>, tail: Bytes)
    requires AllComplete(e, rs) && Answers(e, Restarted(), tail) == ([], false)
    ensures Answers(e, Restarted(), Concat(rs) + tail) == (RepliesTo(e, rs), false)
    decreases |rs|
  {
    if rs == [] {
      assert Concat(rs) + tail == tail;
    } else {
      FirstOfMany(rs, tail);
      FirstReply(e, rs[0], Concat(rs[1..]) + tail);
      OneReplyEach(e, rs[1..], tail);
    }
  }

  lemma FirstOfMany(rs: seq<Bytes>, tail: Bytes)
    requires rs != []
    ensures Concat(rs) + tail == rs[0] + (Concat(rs[1..]) + tail)
  {
  }

  lemma FirstReply(e: Expression, r: Bytes, x: Bytes)
    requires Complete(e, r)
    ensures var (replies, failed) := Answers(e, Restarted(), x);
      Answers(e, Restarted(), r + x) == ([Reply(Recv(e, NewContext(), r).context.request, 200)] + replies, failed)
  {
    AnswersMore(e, Restarted(), r, x);
    assert [] + x == x;
  }

  function NewConn(): Conn { Conn(Restarted(), [], [], true, Connected) }

  /** Every fragmentation of a stream of complete requests is answered with one response per request, in order. */
  lemma OneResponsePerRequest(e: Expression, rs: seq<Bytes>, tail: Bytes, evs: seq<Event>)
    requires AllComplete(e, rs) && Answers(e, Restarted(), tail) == ([], false)
    requires Arrived(evs) == Concat(rs) + tail && Open(e, NewConn(), evs)
    ensures Run(e, NewConn(), evs).replies == RepliesTo(e, rs)
  {
    EmptyWaits(e, Restarted());
    StreamAnswered(e, NewConn(), evs);
    OneReplyEach(e, rs, tail);
    assert [] + Arrived(evs) == Arrived(evs);
  }

  // ---------------------------------------------------------------- persistent connections

  ghost predicate KeepAlive(replies: seq<Reply>) { forall r :: r in replies ==> !Closing(r.request) }

  /** A connection that is closing is not connected again. */
  lemma {:induction false} NeverReconnects(e: Expression, s: Conn)
    requires s.state != Connected
    ensures OnMessage(e, s).state != Connected
    decreases |s.inb|, 0
  {
    var p := Next(e, s.context, s.inb);
    if s.inb != [] && p.context.state == Over {
      var s1 := Answered(s, p, p.rest);
      if Closing(p.context.request) { ShutDownDisconnects(e, s1); }
      NeverReconnects(e, if Closing(p.context.request) then ShutDown(e, s1) else s1);
    } else if s.inb != [] && p.context.state == Error {
      ShutDownDisconnects(e, Answered(s, p, []));
    }
  }

  lemma {:induction false} ShutDownDisconnects(e: Expression, s: Conn)
    ensures ShutDown(e, s).state != Connected
    decreases |s.inb|, 1
  {
    if s.inb != [] { NeverReconnects(e, s.(state := Disconnecting)); }
  }

  /** The driver shuts the connection down exactly when a request asked for it or the parse failed. */
  lemma {:induction false} ConnectedIffKept(e: Expression, s: Conn)
    requires s.state == Connected
    ensures OnMessage(e, s).state == Connected <==>
      !Answers(e, s.context, s.inb).1 && KeepAlive(Answers(e, s.context, s.inb).0)
    decreases |s.inb|
  {
    var p := Next(e, s.context, s.inb);
    if s.inb == [] {
      EmptyWaits(e, s.context);
    } else if p.context.state == Error {
      ShutDownDisconnects(e, Answered(s, p, []));
    } else if p.context.state == Over {
      var s1 := Answered(s, p, p.rest);
      FirstKept(Reply(p.context.request, p.context.status), Answers(e, Restarted(), p.rest).0);
      if Closing(p.context.request) {
        ShutDownDisconnects(e, s1);
        NeverReconnects(e, ShutDown(e, s1));
      } else {
        ConnectedIffKept(e, s1);
      }
    }
  }

  lemma FirstKept(r: Reply, rs: seq<Reply>)
    ensures KeepAlive([r] + rs) <==> !Closing(r.request) && KeepAlive(rs)
  {
    assert r in [r] + rs;
    assert forall x :: x in rs ==> x in [r] + rs;
  }

  /** On a released connection, requests that do not ask to close are read and not answered. */
  lemma {:induction false} ReleasedIsSilent(e: Expression, s: Conn)
    requires s.state == Disconnected && !Answers(e, s.context, s.inb).1 && KeepAlive(Answers(e, s.context, s.inb).0)
    ensures OnMessage(e, s).replies == s.replies && OnMessage(e, s).state == Disconnected
    decreases |s.inb|
  {
    var p := Next(e, s.context, s.inb);
    if s.inb != [] && p.context.state == Over {
      FirstKept(Reply(p.context.request, p.context.status), Answers(e, Restarted(), p.rest).0);
      ReleasedIsSilent(e, Answered(s, p, p.rest));
    }
  }

  /** What is deserved by what has arrived comes first in what the whole stream deserves. */
  lemma AnswersPrefix(e: Expression, s: Conn, x: Bytes)
    requires s.state != Disconnected && !Answers(e, s.context, s.inb + x).1
    ensures !Answers(e, s.context, s.inb).1
    ensures var r := OnMessage(e, s);
      Answers(e, s.context, s.inb + x).0 == Answers(e, s.context, s.inb).0 + Answers(e, r.context, r.inb + x).0
      && !Answers(e, r.context, r.inb + x).1
  {
    OnMessageAccounts(e, s, x);
    OnMessageAnswers(e, s);
    if !Answers(e, s.context, s.inb).1 {
      var r := OnMessage(e, s);
      CancelFirst(s.replies, Answers(e, s.context, s.inb + x).0, Answers(e, s.context, s.inb).0,
        Answers(e, r.context, r.inb + x).0);
    }
  }

  lemma CancelFirst(a: seq<Reply>, due: seq<Reply>, now: seq<Reply>, later: seq<Reply>)
    requires a + due == a + now + later
    ensures due == now + later
  {
    assert due == (a + due)[|a|..];
    assert now + later == (a + now + later)[|a|..];
  }

  /** The stream has no failed parse, and no request in it asks for the close. */
  ghost predicate Kept(e: Expression, c: Parser, input: Bytes) {
    !Answers(e, c, input).1 && KeepAlive(Answers(e, c, input).0)
  }

  lemma KeptOn(e: Expression, s: Conn, x: Bytes)
    requires s.state == Connected && Kept(e, s.context, s.inb + x)
    ensures var r := OnMessage(e, s); r.state == Connected && Kept(e, r.context, r.inb + x)
  {
    AnswersPrefix(e, s, x);
    ConnectedIffKept(e, s);
  }

  lemma KeptEvent(e: Expression, s: Conn, ev: Event, x: Bytes)
    requires s.state == Connected && Kept(e, s.context, s.inb + (Brought(ev) + x))
    ensures var r := Happen(e, s, ev); r.state == Connected && Kept(e, r.context, r.inb + x)
  {
    Regroup(s.inb, Brought(ev), x);
    match ev
    case Arrive(b) => KeptOn(e, s.(inb := s.inb + b), x);
    case Drained => assert s.inb + [] == s.inb;
  }

  /** On an error-free keep-alive stream the connection is never released, however it is cut and drained. */
  lemma {:induction false} KeepAliveOpen(e: Expression, s: Conn, evs: seq<Event>)
    requires s.state == Connected && Kept(e, s.context, s.inb + Arrived(evs))
    ensures Open(e, s, evs) && Run(e, s, evs).state == Connected
    decreases |evs|
  {
    if evs != [] {
      KeptEvent(e, s, evs[0], Arrived(evs[1..]));
      KeepAliveOpen(e, Happen(e, s, evs[0]), evs[1..]);
    }
  }

  /** An error-free keep-alive stream gets one response per complete request, in request order, whatever the
      fragmentation. */
  lemma KeepAliveStream(e: Expression, rs: seq<Bytes>, tail: Bytes, evs: seq<Event>)
    requires AllComplete(e, rs) && Answers(e, Restarted(), tail) == ([], false) && KeepAlive(RepliesTo(e, rs))
    requires Arrived(evs) == Concat(rs) + tail
    ensures Run(e, NewConn(), evs).replies == RepliesTo(e, rs) && Open(e, NewConn(), evs)
    ensures Run(e, NewConn(), evs).state == Connected
  {
    OneReplyEach(e, rs, tail);
    assert [] + Arrived(evs) == Arrived(evs);
    KeepAliveOpen(e, NewConn(), evs);
    OneResponsePerRequest(e, rs, tail, evs);
  }
}
