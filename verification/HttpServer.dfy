/** The HTTP parser and driver as the objects they are, proved against the functions on values. */
module HttpServer {
  import opened ByteStrings
  import opened ByteBuffer
  import opened HttpParser
  import opened HttpDriver
  import UrlCodec

  /** HttpRequest::ContentLength */
  method ReadContentLength(r: Request) returns (len: nat)
    ensures len == ContentLength(r)
  {
    if CONTENT_LENGTH !in r.headers { return 0; }
    var digits := r.headers[CONTENT_LENGTH];
    if digits == [] { return 0; }
    len := 0;
    for i := 0 to |digits|
      invariant len < SIZE_LIMIT
      invariant Number(digits[i..], len) == Number(digits, 0)
    {
      if !IsDigit(digits[i]) { return 0; }
      assert digits[i..][1..] == digits[i + 1..];
      len := (len * 10 + Code(digits[i]) - Code('0')) % SIZE_LIMIT;
    }
  }

  class HttpContext {
    var respStatus: int
    var recvState: RecvState
    var request: Request
    const lineExpression: Expression

    ghost function View(): Context
      reads this
    {
      Context(respStatus, recvState, request)
    }

    constructor (e: Expression)
      ensures View() == NewContext() && lineExpression == e
    {
      respStatus, recvState, request := 200, Line, NewRequest();
      lineExpression := e;
    }

    method ReSet()
      modifies this
      ensures View() == NewContext()
    {
      respStatus, recvState, request := 200, Line, NewRequest();
    }

    method Fail(status: int)
      modifies `respStatus, `recvState
      ensures View() == Failed(old(View()), status)
    {
      recvState, respStatus := Error, status;
    }

    /** Stores the parameters up to the first piece without '='. */
    method StoreParams(pieces: seq<Bytes>) returns (ok: bool)
      modifies `request
      ensures (request.params, ok) == Params(pieces, old(request.params))
      ensures request == old(request).(params := request.params)
    {
      ghost var params := request.params;
      for i := 0 to |pieces|
        invariant Params(pieces[i..], request.params) == Params(pieces, params)
        invariant request == old(request).(params := request.params)
      {
        assert pieces[i..][0] == pieces[i] && pieces[i..][1..] == pieces[i + 1..];
        var pos := UrlCodec.Find(pieces[i], ['='], 0);
        if pos == -1 { return false; }
        var key := UrlCodec.UrlDecode(pieces[i][..pos], true);
        var val := UrlCodec.UrlDecode(pieces[i][pos + 1..], true);
        request := request.(params := request.params[key := val]);
      }
      ok := true;
    }

    method ParseHttpLine(line: Bytes) returns (ok: bool)
      modifies this
      ensures var c := ParseLine(lineExpression, old(View()), line);
        if ok then c == View().(state := Head) else c == View() && recvState == Error
    {
      match lineExpression(line)
      case None =>
        Fail(400);
        ok := false;
      case Some(m) =>
        var path := UrlCodec.UrlDecode(m.path, false);
        request := request.(verb := ToUpper(m.verb), path := path, version := m.version);
        var pieces := UrlCodec.Split(m.query, ['&']);
        ok := StoreParams(pieces);
        if !ok { Fail(400); }
    }

    method RecvHttpLine(buf: Buffer)
      requires buf.Valid()
      modifies this, buf`readerIdx
      ensures buf.Valid()
      ensures Parse(View(), buf.Contents()) == RecvLine(lineExpression, old(View()), old(buf.Contents()))
    {
      if recvState != Line { return; }
      var line := buf.GetLine();
      if |line| == 0 {
        if buf.ReadableSize() > MAX_LINE { Fail(414); }
        return;
      }
      if |line| > MAX_LINE {
        Fail(414);
        return;
      }
      var ok := ParseHttpLine(line);
      if !ok { return; }
      recvState := Head;
    }

    method ParseHttpHead(line: Bytes) returns (ok: bool)
      requires recvState == Head
      modifies this
      ensures View() == ParseHead(old(View()), line) && recvState == (if ok then Head else Error)
    {
      var l := line;
      if l != [] && l[|l| - 1] == '\n' { l := l[..|l| - 1]; }
      if l != [] && l[|l| - 1] == '\r' { l := l[..|l| - 1]; }
      var pos := UrlCodec.Find(l, [':', ' '], 0);
      if pos == -1 {
        Fail(400);
        return false;
      }
      request := request.(headers := request.headers[l[..pos] := l[pos + 2..]]);
      ok := true;
    }

    method RecvHttpHead(buf: Buffer)
      requires buf.Valid()
      modifies this, buf`readerIdx
      ensures buf.Valid()
      ensures Parse(View(), buf.Contents()) == RecvHead(old(View()), old(buf.Contents()))
    {
      if recvState != Head { return; }
      ghost var result := RecvHead(View(), buf.Contents());
      while true
        invariant buf.Valid() && recvState == Head
        invariant RecvHead(View(), buf.Contents()) == result
        decreases |buf.Contents()|
      {
        var line := buf.GetLine();
        if |line| == 0 {
          if buf.ReadableSize() > MAX_LINE { Fail(414); }
          return;
        }
        if |line| > MAX_LINE {
          Fail(414);
          return;
        }
        if line == ['\n'] || line == ['\r', '\n'] { break; }
        var ok := ParseHttpHead(line);
        if !ok { return; }
      }
      recvState := Body;
    }

    method RecvHttpBody(buf: Buffer)
      requires buf.Valid() && (Sound(View()) || Entering(View()))
      modifies this, buf`readerIdx
      ensures buf.Valid()
      ensures Parse(View(), buf.Contents()) == RecvBody(old(View()), old(buf.Contents()))
    {
      if recvState != Body { return; }
      var contentLength := ReadContentLength(request);
      if contentLength == 0 {
        recvState := Over;
        return;
      }
      var missing := contentLength - |request.body|;
      if buf.ReadableSize() >= missing {
        request := request.(body := request.body + buf.Contents()[..missing]);
        buf.MoveReadOffset(missing);
        recvState := Over;
        return;
      }
      request := request.(body := request.body + buf.Contents());
      buf.MoveReadOffset(buf.ReadableSize());
    }

    /** The cases of the switch fall through, and each stage does nothing unless it is its turn. */
    method RecvHttpRequest(buf: Buffer)
      requires buf.Valid() && Sound(View())
      modifies this, buf`readerIdx
      ensures buf.Valid() && Sound(View())
      ensures Parse(View(), buf.Contents()) == Recv(lineExpression, old(View()), old(buf.Contents()))
    {
      RecvKeeps(lineExpression, View(), buf.Contents());
      RecvLineKeeps(lineExpression, View(), buf.Contents());
      RecvHttpLine(buf);
      RecvHeadKeeps(View(), buf.Contents());
      RecvHttpHead(buf);
      RecvHttpBody(buf);
    }
  }

  /** A connection with the driver as its message callback; RunInLoop runs in the loop thread, so at once. */
  class Connection {
    const context: HttpContext
    const inBuffer: Buffer
    var replies: seq<Reply>
    var outEmpty: bool
    var state: ConnState

    ghost predicate Valid()
      reads this, context, inBuffer
    {
      inBuffer.Valid() && Waiting(context.View())
    }

    ghost function View(): Conn
      requires Valid()
      reads this, context, inBuffer, inBuffer.storage
    {
      Conn(context.View(), inBuffer.Contents(), replies, outEmpty, state)
    }

    constructor (e: Expression)
      ensures Valid() && View() == NewConn() && context.lineExpression == e
    {
      context := new HttpContext(e);
      inBuffer := new Buffer();
      replies, outEmpty, state := [], true, Connected;
    }

    method WriteResponse(reply: Reply)
      modifies `replies, `outEmpty
      ensures state == Disconnected ==> replies == old(replies) && outEmpty == old(outEmpty)
      ensures state != Disconnected ==> replies == old(replies) + [reply] && !outEmpty
    {
      if state == Disconnected { return; }
      replies := replies + [reply];
      outEmpty := false;
    }

    /** Terminates although ShutDownInLoop calls it again on the same buffer. */
    method OnMessage()
      requires Valid()
      modifies this, context, inBuffer`readerIdx
      ensures Valid() && View() == HttpDriver.OnMessage(context.lineExpression, old(View()))
      decreases |inBuffer.Contents()|, 1
    {
      ghost var e, size := context.lineExpression, |inBuffer.Contents()|;
      ghost var result := HttpDriver.OnMessage(e, View());
      while inBuffer.ReadableSize() > 0
        invariant Valid() && |inBuffer.Contents()| <= size
        invariant HttpDriver.OnMessage(e, View()) == result
        decreases |inBuffer.Contents()|
      {
        ghost var p := Next(e, context.View(), inBuffer.Contents());
        context.RecvHttpRequest(inBuffer);
        var request, status := context.request, context.respStatus;
        if status >= 400 {
          WriteResponse(Reply(request, status));
          context.ReSet();
          inBuffer.MoveReadOffset(inBuffer.ReadableSize());
          ShutDownInLoop();
          return;
        }
        if context.recvState != Over { return; }
        WriteResponse(Reply(request, status));
        context.ReSet();
        if Closing(request) { ShutDownInLoop(); }
      }
    }

    /** Data read from the socket go to the input buffer and to the driver. */
    method HandleRead(data: Bytes)
      requires Valid()
      modifies this, context, inBuffer, inBuffer.storage
      ensures Valid() && View() == Happen(context.lineExpression, old(View()), Arrive(data))
    {
      inBuffer.Write(data);
      OnMessage();
    }

    method ShutDownInLoop()
      requires Valid()
      modifies this, context, inBuffer`readerIdx
      ensures Valid() && View() == ShutDown(context.lineExpression, old(View()))
      decreases |inBuffer.Contents()|, 2
    {
      state := Disconnecting;
      if inBuffer.ReadableSize() > 0 { OnMessage(); }
      if outEmpty { state := Disconnected; }
    }
  }
}
