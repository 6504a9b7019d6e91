/** The incremental HTTP request parser, as functions on values: what one call does to the context and to the
    unread bytes, and that the outcome does not depend on how the bytes were cut into deliveries. */
module HttpParser {
  import opened ByteStrings
  import opened ByteBuffer
  import UrlCodec

  const MAX_LINE: nat := 8192

  /** Values of size_t. */
  const SIZE_LIMIT: nat := 0x1_0000_0000_0000_0000

  datatype RecvState = Error | Line | Head | Body | Over

  datatype Request = Request(
    verb: Bytes,
    path: Bytes,
    version: Bytes,
    body: Bytes,
    headers: map<Bytes, Bytes>,
    params: map<Bytes, Bytes>)

  datatype Context = Context(status: int, state: RecvState, request: Request)

  /** The capture groups of the request-line expression. */
  datatype Captures = Captures(verb: Bytes, path: Bytes, query: Bytes, version: Bytes)

  /** The request-line expression: what it captures on a whole line, if it matches. */
  type Expression = Bytes -> Option<Captures>

  const CONTENT_LENGTH: Bytes := ['C', 'o', 'n', 't', 'e', 'n', 't', '-', 'L', 'e', 'n', 'g', 't', 'h']

  function NewRequest(): Request {
    Request([], [], ['H', 'T', 'T', 'P', '/', '1', '.', '1'], [], map[], map[])
  }

  function NewContext(): Context { Context(200, Line, NewRequest()) }

  function Failed(c: Context, status: int): Context { c.(state := Error, status := status) }

  // ---------------------------------------------------------------- the pieces of a request

  function ToUpper(s: Bytes): Bytes {
    seq(|s|, i requires 0 <= i < |s| => if IsLower(s[i]) then FromCode(Code(s[i]) - 32) else s[i])
  }

  /** The key and value of one piece of the query string. */
  function Param(piece: Bytes): Option<(Bytes, Bytes)> {
    var pos := UrlCodec.Find(piece, ['='], 0);
    if pos == -1 then None else Some((UrlCodec.Decode(piece[..pos], true), UrlCodec.Decode(piece[pos + 1..], true)))
  }

  /** The parameters stored before the first piece without '=', and whether there was none. */
  function Params(pieces: seq<Bytes>, params: map<Bytes, Bytes>): (map<Bytes, Bytes>, bool) {
    if pieces == [] then (params, true)
    else match Param(pieces[0])
      case None => (params, false)
      case Some((key, val)) => Params(pieces[1..], params[key := val])
  }

  /** ParseHttpLine */
  function ParseLine(e: Expression, c: Context, line: Bytes): Context {
    match e(line)
    case None => Failed(c, 400)
    case Some(m) =>
      var (params, ok) := Params(UrlCodec.Pieces(m.query, ['&']), c.request.params);
      var c1 := c.(request := c.request.(verb := ToUpper(m.verb), path := UrlCodec.Decode(m.path, false),
                                         version := m.version, params := params));
      if ok then c1.(state := Head) else Failed(c1, 400)
  }

  /** The line without its '\n', then without a '\r' before it. */
  function Chomp(line: Bytes): Bytes {
    var l := if line != [] && line[|line| - 1] == '\n' then line[..|line| - 1] else line;
    if l != [] && l[|l| - 1] == '\r' then l[..|l| - 1] else l
  }

  /** ParseHttpHead */
  function ParseHead(c: Context, line: Bytes): Context {
    var l := Chomp(line);
    var pos := UrlCodec.Find(l, [':', ' '], 0);
    if pos == -1 then Failed(c, 400)
    else c.(request := c.request.(headers := c.request.headers[l[..pos] := l[pos + 2..]]))
  }

  /** The decimal number, modulo the range of size_t; 0 if some character is not a digit. */
  function Number(digits: Bytes, sofar: nat): (n: nat)
    requires sofar < SIZE_LIMIT
    ensures n < SIZE_LIMIT
  {
    if digits == [] then sofar
    else if !IsDigit(digits[0]) then 0
    else Number(digits[1..], (sofar * 10 + Code(digits[0]) - Code('0')) % SIZE_LIMIT)
  }

  function ContentLength(r: Request): (n: nat)
    ensures n < SIZE_LIMIT
  {
    if CONTENT_LENGTH in r.headers then Number(r.headers[CONTENT_LENGTH], 0) else 0
  }

  // ---------------------------------------------------------------- one call

  datatype Parse = Parse(context: Context, rest: Bytes)

  function RecvLine(e: Expression, c: Context, b: Bytes): Parse {
    var n := LineLength(b);
    if c.state != Line then Parse(c, b)
    else if n == 0 then Parse(if |b| > MAX_LINE then Failed(c, 414) else c, b)
    else if n > MAX_LINE then Parse(Failed(c, 414), b[n..])
    else Parse(ParseLine(e, c, b[..n]), b[n..])
  }

  predicate Blank(line: Bytes) { line == ['\n'] || line == ['\r', '\n'] }

  function RecvHead(c: Context, b: Bytes): Parse
    decreases |b|
  {
    var n := LineLength(b);
    if c.state != Head then Parse(c, b)
    else if n == 0 then Parse(if |b| > MAX_LINE then Failed(c, 414) else c, b)
    else if n > MAX_LINE then Parse(Failed(c, 414), b[n..])
    else if Blank(b[..n]) then Parse(c.(state := Body), b[n..])
    else RecvHead(ParseHead(c, b[..n]), b[n..])
  }

  function WithBody(c: Context, data: Bytes): Context { c.(request := c.request.(body := c.request.body + data)) }

  /** What the body still lacks; the subtraction is that of size_t. */
  function Missing(c: Context): nat { (ContentLength(c.request) - |c.request.body|) % SIZE_LIMIT }

  function RecvBody(c: Context, b: Bytes): Parse {
    if c.state != Body then Parse(c, b)
    else if ContentLength(c.request) == 0 then Parse(c.(state := Over), b)
    else if |b| >= Missing(c) then Parse(WithBody(c, b[..Missing(c)]).(state := Over), b[Missing(c)..])
    else Parse(WithBody(c, b), [])
  }

  /** RecvHttpRequest: the cases of the switch fall through. */
  function Recv(e: Expression, c: Context, b: Bytes): Parse {
    var p1 := RecvLine(e, c, b);
    var p2 := RecvHead(p1.context, p1.rest);
    RecvBody(p2.context, p2.rest)
  }

  // ---------------------------------------------------------------- what every call keeps

  /** Nothing of the body before its turn, and never more than announced. */
  ghost predicate Sound(c: Context) {
    && (c.state == Line || c.state == Head ==> c.request.body == [])
    && (c.state == Body ==> |c.request.body| < ContentLength(c.request))
  }

  /** Sound, or at the very start of the body. */
  ghost predicate Entering(c: Context) {
    c.state == Body && c.request.body == []
  }

  lemma {:induction false} RecvHeadKeeps(c: Context, b: Bytes)
    requires Sound(c)
    ensures Sound(RecvHead(c, b).context) || Entering(RecvHead(c, b).context)
    ensures c.state == Head ==> RecvHead(c, b).context.state != Line && RecvHead(c, b).context.state != Over
    decreases |b|
  {
    var n := LineLength(b);
    if c.state == Head && 0 < n <= MAX_LINE && !Blank(b[..n]) { RecvHeadKeeps(ParseHead(c, b[..n]), b[n..]); }
  }

  lemma RecvBodyKeeps(c: Context, b: Bytes)
    requires Sound(c) || Entering(c)
    ensures Sound(RecvBody(c, b).context)
  {
  }

  lemma RecvLineKeeps(e: Expression, c: Context, b: Bytes)
    requires Sound(c)
    ensures Sound(RecvLine(e, c, b).context)
  {
  }

  lemma RecvKeeps(e: Expression, c: Context, b: Bytes)
    requires Sound(c)
    ensures Sound(Recv(e, c, b).context)
  {
    var p1 := RecvLine(e, c, b);
    RecvLineKeeps(e, c, b);
    RecvHeadKeeps(p1.context, p1.rest);
    var p2 := RecvHead(p1.context, p1.rest);
    RecvBodyKeeps(p2.context, p2.rest);
  }

  // ---------------------------------------------------------------- more bytes

  /** More bytes after a complete line do not change it. */
  lemma {:induction false} LineStays(b: Bytes, x: Bytes)
    ensures LineLength(b) > 0 ==> LineLength(b + x) == LineLength(b)
    ensures LineLength(b) == 0 && LineLength(b + x) > 0 ==> LineLength(b + x) > |b|
  {
    if b != [] {
      assert (b + x)[1..] == b[1..] + x;
      LineStays(b[1..], x);
    }
  }

  /** Same parse state, status and request; same unread bytes unless the parse has failed. */
  ghost predicate Same(p: Parse, q: Parse) {
    p.context == q.context && (p.context.state == Error || p.rest == q.rest)
  }

  lemma LineMore(e: Expression, c: Context, b: Bytes, x: Bytes)
    requires c.state == Line
    ensures var p := RecvLine(e, c, b);
      if p.context.state == Line then p == Parse(c, b) else Same(RecvLine(e, c, b + x), Parse(p.context, p.rest + x))
  {
    var n := LineLength(b);
    LineStays(b, x);
    if n > 0 {
      assert (b + x)[..n] == b[..n] && (b + x)[n..] == b[n..] + x;
    }
  }

  lemma HeadWaits(c: Context, b: Bytes, x: Bytes)
    requires c.state == Head && LineLength(b) == 0
    ensures var p := RecvHead(c, b); Same(RecvHead(c, b + x), RecvHead(p.context, p.rest + x))
  {
    LineStays(b, x);
  }

  /** A complete line is taken alike, whatever follows it. */
  lemma HeadLine(c: Context, b: Bytes, x: Bytes)
    requires c.state == Head && LineLength(b) > 0
    ensures var n := LineLength(b);
      RecvHead(c, b + x) ==
        if n > MAX_LINE then Parse(Failed(c, 414), b[n..] + x)
        else if Blank(b[..n]) then Parse(c.(state := Body), b[n..] + x)
        else RecvHead(ParseHead(c, b[..n]), b[n..] + x)
  {
    var n := LineLength(b);
    LineStays(b, x);
    assert (b + x)[..n] == b[..n] && (b + x)[n..] == b[n..] + x;
  }

  lemma {:induction false} HeadMore(c: Context, b: Bytes, x: Bytes)
    ensures var p := RecvHead(c, b); Same(RecvHead(c, b + x), RecvHead(p.context, p.rest + x))
    decreases |b|
  {
    var n := LineLength(b);
    if c.state == Head && n == 0 {
      HeadWaits(c, b, x);
    } else if c.state == Head {
      HeadLine(c, b, x);
      if n <= MAX_LINE && !Blank(b[..n]) { HeadMore(ParseHead(c, b[..n]), b[n..], x); }
    }
  }

  lemma BodyMore(c: Context, b: Bytes, x: Bytes)
    requires Entering(c) || (c.state == Body && Sound(c))
    ensures var p := RecvBody(c, b); RecvBody(c, b + x) == RecvBody(p.context, p.rest + x)
  {
    var n := Missing(c);
    if ContentLength(c.request) != 0 && |b| >= n {
      assert (b + x)[..n] == b[..n] && (b + x)[n..] == b[n..] + x;
    } else if ContentLength(c.request) != 0 {
      BodyPart(c, b, x);
    }
  }

  lemma BodyPart(c: Context, b: Bytes, x: Bytes)
    requires Entering(c) || (c.state == Body && Sound(c))
    requires ContentLength(c.request) != 0 && |b| < Missing(c)
    ensures RecvBody(c, b + x) == RecvBody(WithBody(c, b), x) && [] + x == x
  {
    var n := Missing(c);
    MissingLess(c, b);
    if |b + x| >= n {
      assert (b + x)[..n] == b + x[..n - |b|] && (b + x)[n..] == x[n - |b|..];
      Regroup(c.request.body, b, x[..n - |b|]);
    } else {
      Regroup(c.request.body, b, x);
    }
  }

  lemma MissingLess(c: Context, b: Bytes)
    requires |b| < Missing(c)
    ensures Missing(WithBody(c, b)) == Missing(c) - |b|
  {
    ModLess(ContentLength(c.request) - |c.request.body|, |b|);
  }

  lemma ModLess(k: int, n: nat)
    requires n < k % SIZE_LIMIT
    ensures (k - n) % SIZE_LIMIT == k % SIZE_LIMIT - n
  {
  }

  /** Two deliveries do what one delivery of the same bytes does. */
  lemma TwoDeliveries(e: Expression, c: Context, b: Bytes, x: Bytes)
    requires Sound(c)
    ensures var p := Recv(e, c, b); Same(Recv(e, p.context, p.rest + x), Recv(e, c, b + x))
  {
    match c.state
    case Line => LineThenMore(e, c, b, x);
    case Head => HeadThenMore(e, c, b, x);
    case Body => BodyMore(c, b, x);
    case _ =>
  }

  lemma HeadThenMore(e: Expression, c: Context, b: Bytes, x: Bytes)
    requires Sound(c) && c.state == Head
    ensures var p := Recv(e, c, b); Same(Recv(e, p.context, p.rest + x), Recv(e, c, b + x))
  {
    var p := RecvHead(c, b);
    RecvHeadKeeps(c, b);
    HeadMore(c, b, x);
    FromHead(e, c, b);
    FromHead(e, c, b + x);
    match p.context.state
    case Head => FromHead(e, p.context, p.rest + x);
    case Body => BodyThenMore(e, p.context, p.rest, x);
    case _ =>
  }

  lemma FromHead(e: Expression, c: Context, b: Bytes)
    requires c.state == Head
    ensures var p := RecvHead(c, b); Recv(e, c, b) == RecvBody(p.context, p.rest)
  {
  }

  lemma BodyThenMore(e: Expression, c: Context, b: Bytes, x: Bytes)
    requires c.state == Body && (Entering(c) || Sound(c))
    ensures var p := RecvBody(c, b); Recv(e, p.context, p.rest + x) == RecvBody(c, b + x)
  {
    BodyMore(c, b, x);
  }

  lemma LineThenMore(e: Expression, c: Context, b: Bytes, x: Bytes)
    requires Sound(c) && c.state == Line
    ensures var p := Recv(e, c, b); Same(Recv(e, p.context, p.rest + x), Recv(e, c, b + x))
  {
    LineMore(e, c, b, x);
    var p := RecvLine(e, c, b);
    if p.context.state == Head { HeadThenMore(e, p.context, p.rest, x); }
  }

  // ---------------------------------------------------------------- any fragmentation

  /** The pieces are delivered one after the other, with a call after each. */
  function Deliver(e: Expression, p: Parse, pieces: seq<Bytes>): Parse
    decreases |pieces|
  {
    if pieces == [] then p else Deliver(e, Recv(e, p.context, p.rest + pieces[0]), pieces[1..])
  }

  lemma {:induction false} DeliverAfter(e: Expression, p: Parse, q: Parse, pieces: seq<Bytes>)
    requires Sound(p.context) && Same(p, q)
    ensures Same(Deliver(e, p, pieces), Deliver(e, q, pieces))
    decreases |pieces|
  {
    if pieces != [] {
      RecvKeeps(e, p.context, p.rest + pieces[0]);
      DeliverAfter(e, Recv(e, p.context, p.rest + pieces[0]), Recv(e, q.context, q.rest + pieces[0]), pieces[1..]);
    }
  }

  /** Every fragmentation of the same bytes, empty pieces included, ends as one delivery of all of them does. */
  lemma {:induction false} AnyFragmentation(e: Expression, c: Context, pieces: seq<Bytes>)
    requires Sound(c) && pieces != []
    ensures Same(Deliver(e, Parse(c, []), pieces), Recv(e, c, Concat(pieces)))
  {
    FragmentsAfter(e, c, pieces[0], pieces[1..]);
    assert [] + pieces[0] == pieces[0];
  }

  lemma {:induction false} FragmentsAfter(e: Expression, c: Context, b: Bytes, pieces: seq<Bytes>)
    requires Sound(c)
    ensures Same(Deliver(e, Recv(e, c, b), pieces), Recv(e, c, b + Concat(pieces)))
    decreases |pieces|
  {
    if pieces == [] {
      assert b + [] == b;
    } else {
      ConcatNext(b, pieces);
      FirstFragment(e, c, b, pieces);
      FragmentsAfter(e, c, b + pieces[0], pieces[1..]);
    }
  }

  lemma ConcatNext(b: Bytes, pieces: seq<Bytes>)
    requires pieces != []
    ensures b + pieces[0] + Concat(pieces[1..]) == b + Concat(pieces)
  {
  }

  /** The first piece may as well have come with the bytes before it. */
  lemma FirstFragment(e: Expression, c: Context, b: Bytes, pieces: seq<Bytes>)
    requires Sound(c) && pieces != []
    ensures Same(Deliver(e, Recv(e, c, b), pieces), Deliver(e, Recv(e, c, b + pieces[0]), pieces[1..]))
  {
    var p := Recv(e, c, b);
    RecvKeeps(e, c, b);
    TwoDeliveries(e, c, b, pieces[0]);
    RecvKeeps(e, p.context, p.rest + pieces[0]);
    DeliverAfter(e, Recv(e, p.context, p.rest + pieces[0]), Recv(e, c, b + pieces[0]), pieces[1..]);
  }

  // ---------------------------------------------------------------- Content-Length

  /** std::to_string */
  function Decimal(n: nat): Bytes {
    if n < 10 then [FromCode(Code('0') + n)] else Decimal(n / 10) + [FromCode(Code('0') + n % 10)]
  }

  lemma {:induction false} NumberAppend(digits: Bytes, d: Byte, sofar: nat)
    requires sofar < SIZE_LIMIT && IsDigit(d) && forall c :: c in digits ==> IsDigit(c)
    ensures Number(digits + [d], sofar) == (Number(digits, sofar) * 10 + Code(d) - Code('0')) % SIZE_LIMIT
    decreases |digits|
  {
    if digits != [] {
      assert (digits + [d])[1..] == digits[1..] + [d];
      NumberAppend(digits[1..], d, (sofar * 10 + Code(digits[0]) - Code('0')) % SIZE_LIMIT);
    }
  }

  /** Reading what to_string wrote gives the number back modulo the range of size_t. */
  lemma {:induction false} NumberReadsDecimal(n: nat)
    ensures Number(Decimal(n), 0) == n % 0x1_0000_0000_0000_0000
    ensures forall c :: c in Decimal(n) ==> IsDigit(c)
  {
    if n >= 10 {
      NumberReadsDecimal(n / 10);
      NumberAppend(Decimal(n / 10), FromCode(Code('0') + n % 10), 0);
      ModStep(n / 10, n % 10);
    }
  }

  lemma ModStep(q: nat, d: nat)
    ensures (q % SIZE_LIMIT * 10 + d) % SIZE_LIMIT == (q * 10 + d) % SIZE_LIMIT
  {
    var k := q / SIZE_LIMIT;
    assert q * 10 + d == q % SIZE_LIMIT * 10 + d + SIZE_LIMIT * (10 * k);
  }

  /** A header that is not all digits announces no body. */
  lemma {:induction false} NumberNeedsDigits(digits: Bytes, i: nat, sofar: nat)
    requires sofar < SIZE_LIMIT && i < |digits| && !IsDigit(digits[i])
    ensures Number(digits, sofar) == 0
    decreases |digits|
  {
    if i > 0 && IsDigit(digits[0]) {
      NumberNeedsDigits(digits[1..], i - 1, (sofar * 10 + Code(digits[0]) - Code('0')) % SIZE_LIMIT);
    }
  }
}
