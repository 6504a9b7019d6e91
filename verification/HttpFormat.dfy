/** Requests written out in the wire format, and that the parser reads back what was written. */
module HttpFormat {
  import opened ByteStrings
  import opened ByteBuffer
  import opened HttpParser
  import UrlCodec

  datatype Pair = Pair(key: Bytes, val: Bytes)

  const COLON: Bytes := [':', ' ']
  const NEWLINE: Bytes := ['\r', '\n']

  /** The pairs stored one after the other; a later one replaces an earlier one with its key. */
  function Stored(m: map<Bytes, Bytes>, ps: seq<Pair>): map<Bytes, Bytes>
    decreases |ps|
  {
    if ps == [] then m else Stored(m[ps[0].key := ps[0].val], ps[1..])
  }

  // ---------------------------------------------------------------- the query string

  function ParamPiece(p: Pair): Bytes { UrlCodec.Encode(p.key, true) + ['='] + UrlCodec.Encode(p.val, true) }

  function ParamPieces(ps: seq<Pair>): seq<Bytes> {
    if ps == [] then [] else [ParamPiece(ps[0])] + ParamPieces(ps[1..])
  }

  function QueryString(ps: seq<Pair>): Bytes { UrlCodec.Join(ParamPieces(ps), '&') }

  lemma {:induction false} EncodedHas(url: Bytes, c: Byte)
    requires c == '&' || c == '='
    ensures c !in UrlCodec.Encode(url, true)
  {
    if url != [] { EncodedHas(url[1..], c); }
  }

  lemma ParamReads(p: Pair)
    ensures Param(ParamPiece(p)) == Some((p.key, p.val)) && UrlCodec.Plain(ParamPiece(p), '&')
  {
    var k, v := UrlCodec.Encode(p.key, true), UrlCodec.Encode(p.val, true);
    var s := ParamPiece(p);
    EncodedHas(p.key, '=');
    EncodedHas(p.key, '&');
    EncodedHas(p.val, '&');
    forall i | 0 <= i < |k| ensures s[i] != '=' { assert s[i] == k[i]; }
    UrlCodec.FindEnd(s, '=', 0, |k|);
    assert s[..|k|] == k && s[|k| + 1..] == v;
    UrlCodec.RoundTrip(p.key, true);
    UrlCodec.RoundTrip(p.val, true);
  }

  lemma {:induction false} PiecesPlain(ps: seq<Pair>)
    ensures forall x :: x in ParamPieces(ps) ==> UrlCodec.Plain(x, '&')
  {
    if ps != [] {
      ParamReads(ps[0]);
      PiecesPlain(ps[1..]);
    }
  }

  lemma {:induction false} ParamsRead(ps: seq<Pair>, m: map<Bytes, Bytes>)
    ensures Params(ParamPieces(ps), m) == (Stored(m, ps), true)
  {
    if ps != [] {
      ParamReads(ps[0]);
      assert ParamPieces(ps)[1..] == ParamPieces(ps[1..]);
      ParamsRead(ps[1..], m[ps[0].key := ps[0].val]);
    }
  }

  /** A query string written from pairs is read back to these pairs, whatever bytes are in them. */
  lemma QueryReads(ps: seq<Pair>, m: map<Bytes, Bytes>)
    ensures Params(UrlCodec.Pieces(QueryString(ps), ['&']), m) == (Stored(m, ps), true)
  {
    PiecesPlain(ps);
    UrlCodec.SplitUndoesJoin(ParamPieces(ps), '&', []);
    assert [] + QueryString(ps) == QueryString(ps);
    ParamsRead(ps, m);
  }

  // ---------------------------------------------------------------- headers

  function HeaderLine(h: Pair): Bytes { h.key + COLON + h.val + NEWLINE }

  /** No line feed, no separator in the key, and within the line limit. */
  ghost predicate PlainHeader(h: Pair) {
    '\n' !in h.key && '\n' !in h.val && (forall i: nat :: !UrlCodec.At(h.key, COLON, i)) && |HeaderLine(h)| <= MAX_LINE
  }

  /** A line: one line feed, at its end. */
  predicate IsLine(line: Bytes) { line != [] && line[|line| - 1] == '\n' && '\n' !in line[..|line| - 1] }

  lemma {:induction false} LineEndsAt(line: Bytes, rest: Bytes)
    requires IsLine(line)
    ensures LineLength(line + rest) == |line|
    ensures (line + rest)[..|line|] == line && (line + rest)[|line|..] == rest
  {
    if |line| > 1 {
      assert line[..|line| - 1][0] == line[0];
      assert line[1..][..|line| - 2] == line[..|line| - 1][1..];
      LineEndsAt(line[1..], rest);
      assert (line + rest)[1..] == line[1..] + rest;
    }
  }

  /** The separator cannot begin in the key unless it lies in the key. */
  lemma ColonInKey(h: Pair, i: nat)
    requires i < |h.key| && UrlCodec.At(h.key + COLON + h.val, COLON, i)
    ensures UrlCodec.At(h.key, COLON, i)
  {
    var l := h.key + COLON + h.val;
    assert l[i..i + 2][1] == l[i + 1] == ' ';
    assert l[|h.key|] == ':';
    assert l[i..i + 2] == h.key[i..i + 2];
  }

  lemma ColonFound(h: Pair)
    requires PlainHeader(h)
    ensures UrlCodec.Find(h.key + COLON + h.val, COLON, 0) == |h.key|
  {
    var l := h.key + COLON + h.val;
    UrlCodec.FindFirst(l, COLON, 0);
    assert l[|h.key|..|h.key| + 2] == COLON;
    assert UrlCodec.At(l, COLON, |h.key|);
    forall i: nat | i < |h.key| && UrlCodec.At(l, COLON, i) ensures UrlCodec.At(h.key, COLON, i) { ColonInKey(h, i); }
  }

  lemma HeaderReads(c: Context, h: Pair)
    requires PlainHeader(h)
    ensures ParseHead(c, HeaderLine(h)) == c.(request := c.request.(headers := c.request.headers[h.key := h.val]))
    ensures !Blank(HeaderLine(h))
  {
    var l := h.key + COLON + h.val;
    var line := HeaderLine(h);
    assert line[..|line| - 1] == l + ['\r'];
    assert (l + ['\r'])[..|l|] == l;
    assert Chomp(line) == l;
    ColonFound(h);
    assert l[..|h.key|] == h.key && l[|h.key| + 2..] == h.val;
  }

  function HeaderLines(hs: seq<Pair>): Bytes { if hs == [] then [] else HeaderLine(hs[0]) + HeaderLines(hs[1..]) }

  lemma HeaderIsLine(h: Pair)
    requires PlainHeader(h)
    ensures IsLine(HeaderLine(h))
  {
    var line := HeaderLine(h);
    assert line[..|line| - 1] == h.key + COLON + h.val + ['\r'];
  }

  /** Header lines and the empty line, with whatever follows, are read to the headers. */
  lemma {:induction false} HeadersRead(c: Context, hs: seq<Pair>, rest: Bytes)
    requires c.state == Head && forall h :: h in hs ==> PlainHeader(h)
    ensures RecvHead(c, HeaderLines(hs) + (NEWLINE + rest)) ==
      Parse(c.(state := Body, request := c.request.(headers := Stored(c.request.headers, hs))), rest)
    decreases |hs|
  {
    if hs == [] {
      assert HeaderLines(hs) + (NEWLINE + rest) == NEWLINE + rest;
      assert NEWLINE[..1] == ['\r'];
      LineEndsAt(NEWLINE, rest);
    } else {
      FirstHeader(c, hs, rest);
      HeadersRead(ParseHead(c, HeaderLine(hs[0])), hs[1..], rest);
      HeaderReads(c, hs[0]);
    }
  }

  lemma FirstHeader(c: Context, hs: seq<Pair>, rest: Bytes)
    requires c.state == Head && hs != [] && PlainHeader(hs[0])
    ensures ParseHead(c, HeaderLine(hs[0])).state == Head
    ensures RecvHead(c, HeaderLines(hs) + (NEWLINE + rest)) ==
      RecvHead(ParseHead(c, HeaderLine(hs[0])), HeaderLines(hs[1..]) + (NEWLINE + rest))
  {
    var after := HeaderLines(hs[1..]) + (NEWLINE + rest);
    assert HeaderLines(hs) + (NEWLINE + rest) == HeaderLine(hs[0]) + after;
    HeaderIsLine(hs[0]);
    LineEndsAt(HeaderLine(hs[0]), after);
    HeaderReads(c, hs[0]);
  }

  // ---------------------------------------------------------------- whole requests

  /** The headers announce the body: its length in decimal, or nothing when there is none. */
  ghost predicate Announced(headers: map<Bytes, Bytes>, body: Bytes) {
    if CONTENT_LENGTH in headers then headers[CONTENT_LENGTH] == Decimal(|body|) && |body| < SIZE_LIMIT else body == []
  }

  /** A request in the wire format. */
  function Wire(line: Bytes, hs: seq<Pair>, body: Bytes): Bytes { line + (HeaderLines(hs) + (NEWLINE + body)) }

  /** The expression captures from the line these parts: a text that decodes to the path, where '+' stands for itself,
      and the query string of the parameters. */
  ghost predicate Written(e: Expression, line: Bytes, verb: Bytes, path: Bytes, ps: seq<Pair>, version: Bytes) {
    && IsLine(line) && |line| <= MAX_LINE && e(line).Some?
    && e(line).value == Captures(verb, e(line).value.path, QueryString(ps), version)
    && UrlCodec.Decode(e(line).value.path, false) == path
  }

  /** A path may be written percent-coded, whatever bytes are in it. */
  lemma CodedPathIsWritten(e: Expression, line: Bytes, verb: Bytes, path: Bytes, ps: seq<Pair>, version: Bytes)
    requires IsLine(line) && |line| <= MAX_LINE
    requires e(line) == Some(Captures(verb, UrlCodec.Encode(path, false), QueryString(ps), version))
    ensures Written(e, line, verb, path, ps, version)
  {
    UrlCodec.RoundTrip(path, false);
  }

  /** The method is folded to upper case, so it is left alone exactly when it holds no lower-case letter. */
  lemma VerbFolds(verb: Bytes)
    ensures ToUpper(verb) == verb <==> forall i :: 0 <= i < |verb| ==> !IsLower(verb[i])
  {
    if ToUpper(verb) == verb {
      forall i | 0 <= i < |verb| ensures !IsLower(verb[i]) { assert ToUpper(verb)[i] == verb[i]; }
    }
  }

  lemma BodyReads(c: Context, body: Bytes, rest: Bytes)
    requires c.state == Body && c.request.body == [] && Announced(c.request.headers, body)
    ensures RecvBody(c, body + rest) == Parse(c.(state := Over, request := c.request.(body := body)), rest)
  {
    AnnouncedLength(c, body);
    assert (body + rest)[..|body|] == body && (body + rest)[|body|..] == rest;
    assert [] + body == body;
    if body == [] { assert body + rest == rest; }
  }

  lemma AnnouncedLength(c: Context, body: Bytes)
    requires c.request.body == [] && Announced(c.request.headers, body)
    ensures ContentLength(c.request) == |body| == Missing(c)
  {
    if CONTENT_LENGTH in c.request.headers {
      NumberReadsDecimal(|body|);
      SmallNumber(|body|);
    }
    SmallNumber(ContentLength(c.request));
  }

  lemma SmallNumber(n: nat)
    requires n < SIZE_LIMIT
    ensures n % SIZE_LIMIT == n
  {
  }

  lemma LineReads(e: Expression, line: Bytes, verb: Bytes, path: Bytes, ps: seq<Pair>, version: Bytes, rest: Bytes)
    requires Written(e, line, verb, path, ps, version)
    ensures RecvLine(e, NewContext(), line + rest) ==
      Parse(Context(200, Head, Request(ToUpper(verb), path, version, [], map[], Stored(map[], ps))), rest)
  {
    LineEndsAt(line, rest);
    QueryReads(ps, map[]);
  }

  /** What was written is what is read: a request in the wire format is parsed to its parts, and what follows it is left
      unread. */
  lemma WrittenIsRead(e: Expression, line: Bytes, verb: Bytes, path: Bytes, ps: seq<Pair>, version: Bytes,
                      hs: seq<Pair>, body: Bytes, rest: Bytes)
    requires Written(e, line, verb, path, ps, version)
    requires (forall h :: h in hs ==> PlainHeader(h)) && Announced(Stored(map[], hs), body)
    ensures Recv(e, NewContext(), Wire(line, hs, body) + rest) ==
      Parse(Context(200, Over, Request(ToUpper(verb), path, version, body, Stored(map[], hs), Stored(map[], ps))), rest)
  {
    var after := HeaderLines(hs) + (NEWLINE + (body + rest));
    WireThen(line, hs, body, rest);
    LineReads(e, line, verb, path, ps, version, after);
    HeadAndBodyRead(Context(200, Head, Request(ToUpper(verb), path, version, [], map[], Stored(map[], ps))), hs, body,
      rest);
  }

  lemma WireThen(line: Bytes, hs: seq<Pair>, body: Bytes, rest: Bytes)
    ensures Wire(line, hs, body) + rest == line + (HeaderLines(hs) + (NEWLINE + (body + rest)))
  {
  }

  lemma HeadAndBodyRead(c: Context, hs: seq<Pair>, body: Bytes, rest: Bytes)
    requires c.state == Head && c.request.body == [] && c.request.headers == map[]
    requires (forall h :: h in hs ==> PlainHeader(h)) && Announced(Stored(map[], hs), body)
    ensures var p := RecvHead(c, HeaderLines(hs) + (NEWLINE + (body + rest)));
      RecvBody(p.context, p.rest) ==
        Parse(c.(state := Over, request := c.request.(headers := Stored(map[], hs), body := body)), rest)
  {
    HeadersRead(c, hs, body + rest);
    BodyReads(c.(state := Body, request := c.request.(headers := Stored(map[], hs))), body, rest);
  }

  /** A request is read back exactly: an upper-case method, a percent-coded path with any bytes in it, parameters,
      headers and the body. */
  lemma RequestRoundTrip(e: Expression, line: Bytes, r: Request, ps: seq<Pair>, hs: seq<Pair>, rest: Bytes)
    requires IsLine(line) && |line| <= MAX_LINE && forall i :: 0 <= i < |r.verb| ==> !IsLower(r.verb[i])
    requires e(line) == Some(Captures(r.verb, UrlCodec.Encode(r.path, false), QueryString(ps), r.version))
    requires r.params == Stored(map[], ps) && r.headers == Stored(map[], hs) && Announced(r.headers, r.body)
    requires forall h :: h in hs ==> PlainHeader(h)
    ensures Recv(e, NewContext(), Wire(line, hs, r.body) + rest) == Parse(Context(200, Over, r), rest)
  {
    VerbFolds(r.verb);
    CodedPathIsWritten(e, line, r.verb, r.path, ps, r.version);
    WrittenIsRead(e, line, r.verb, r.path, ps, r.version, hs, r.body, rest);
  }

  // ---------------------------------------------------------------- what is refused

  lemma FindsByte(src: Bytes, c: Byte)
    ensures UrlCodec.Find(src, [c], 0) == -1 <==> c !in src
  {
    UrlCodec.FindFirst(src, [c], 0);
    var pos := UrlCodec.Find(src, [c], 0);
    if pos == -1 {
      forall k | 0 <= k < |src| ensures src[k] != c { UrlCodec.AtByte(src, c, k); }
    } else {
      UrlCodec.AtByte(src, c, pos);
    }
  }

  lemma {:induction false} ParamsOkIff(pieces: seq<Bytes>, m: map<Bytes, Bytes>)
    ensures Params(pieces, m).1 <==> forall x :: x in pieces ==> '=' in x
    decreases |pieces|
  {
    if pieces != [] {
      FindsByte(pieces[0], '=');
      assert forall x :: x in pieces <==> x == pieces[0] || x in pieces[1..];
      match Param(pieces[0])
      case None =>
      case Some((key, val)) => ParamsOkIff(pieces[1..], m[key := val]);
    }
  }

  /** What becomes of a request line: too long gives 414; no match of the expression, or a query piece without '=',
      gives 400; any other is accepted. */
  lemma LineVerdict(e: Expression, c: Context, line: Bytes, rest: Bytes)
    requires c.state == Line && IsLine(line)
    ensures var r := RecvLine(e, c, line + rest).context;
      if |line| > 8192 then r.state == Error && r.status == 414
      else if e(line).None? || exists x :: x in UrlCodec.Pieces(e(line).value.query, ['&']) && '=' !in x
      then r.state == Error && r.status == 400
      else r.state == Head && r.status == c.status
  {
    LineEndsAt(line, rest);
    if e(line).Some? { ParamsOkIff(UrlCodec.Pieces(e(line).value.query, ['&']), c.request.params); }
  }

  /** An unfinished line waits while it may still fit, and gives 414 otherwise. */
  lemma UnfinishedVerdict(e: Expression, c: Context, b: Bytes)
    requires (c.state == Line || c.state == Head) && '\n' !in b
    ensures Recv(e, c, b) == Parse(if |b| > 8192 then Failed(c, 414) else c, b)
  {
  }

  /** A line ends in "\r\n" or in "\n" alone. */
  lemma ChompEnds(l: Bytes)
    ensures Chomp(l + ['\r', '\n']) == l
    ensures l == [] || l[|l| - 1] != '\r' ==> Chomp(l + ['\n']) == l
  {
    ChompFeed(l);
    ChompFeed(l + ['\r']);
    assert l + ['\r'] + ['\n'] == l + ['\r', '\n'];
    assert (l + ['\r'])[..|l|] == l;
  }

  lemma ChompFeed(l: Bytes)
    ensures Chomp(l + ['\n']) == if l != [] && l[|l| - 1] == '\r' then l[..|l| - 1] else l
  {
    assert (l + ['\n'])[..|l|] == l;
  }

  /** The headers end at an empty line. */
  lemma EmptyLineEnds(c: Context, line: Bytes, rest: Bytes)
    requires c.state == Head && (line == ['\n'] || line == ['\r', '\n'])
    ensures RecvHead(c, line + rest) == Parse(c.(state := Body), rest)
  {
    assert line[..|line| - 1] == [] || line[..|line| - 1] == ['\r'];
    LineEndsAt(line, rest);
  }

  /** ": " stands at k, and nowhere before. */
  ghost predicate FirstColon(l: Bytes, k: nat) {
    UrlCodec.At(l, COLON, k) && forall i: nat :: i < k ==> !UrlCodec.At(l, COLON, i)
  }

  /** A line is refused as a header exactly when it has no ": "; otherwise the key is what stands before the first one,
      and the value what stands after it. */
  lemma HeaderVerdict(c: Context, line: Bytes)
    ensures var l := Chomp(line);
      if forall i: nat :: !UrlCodec.At(l, COLON, i) then ParseHead(c, line) == Failed(c, 400)
      else exists k: nat :: FirstColon(l, k) &&
             ParseHead(c, line) == c.(request := c.request.(headers := c.request.headers[l[..k] := l[k + 2..]]))
  {
    var l := Chomp(line);
    UrlCodec.FindFirst(l, COLON, 0);
    var pos := UrlCodec.Find(l, COLON, 0);
    if pos != -1 { assert FirstColon(l, pos); }
  }

  /** What becomes of a line among the headers that is not the empty one. */
  lemma HeadLineVerdict(c: Context, line: Bytes, rest: Bytes)
    requires c.state == Head && IsLine(line) && line != ['\n'] && line != ['\r', '\n']
    ensures var r := RecvHead(c, line + rest);
      if |line| > 8192 then r.context == Failed(c, 414)
      else if forall i: nat :: !UrlCodec.At(Chomp(line), COLON, i) then r.context == Failed(c, 400)
      else r == RecvHead(ParseHead(c, line), rest) && ParseHead(c, line).state == Head
  {
    LineEndsAt(line, rest);
    HeaderVerdict(c, line);
  }

  lemma {:induction false} HeadersThen(c: Context, hs: seq<Pair>, after: Bytes)
    requires c.state == Head && forall h :: h in hs ==> PlainHeader(h)
    ensures RecvHead(c, HeaderLines(hs) + after) ==
      RecvHead(c.(request := c.request.(headers := Stored(c.request.headers, hs))), after)
    decreases |hs|
  {
    if hs == [] {
      assert HeaderLines(hs) + after == after;
    } else {
      var rest := HeaderLines(hs[1..]) + after;
      assert HeaderLines(hs) + after == HeaderLine(hs[0]) + rest;
      HeaderIsLine(hs[0]);
      LineEndsAt(HeaderLine(hs[0]), rest);
      HeaderReads(c, hs[0]);
      HeadersThen(ParseHead(c, HeaderLine(hs[0])), hs[1..], after);
    }
  }

  /** Every letter of the method is made a capital one. */
  lemma UpperLetters(verb: Bytes, i: nat, n: nat)
    requires i < |verb| && n < 26 && verb[i] == "abcdefghijklmnopqrstuvwxyz"[n]
    ensures ToUpper(verb)[i] == "ABCDEFGHIJKLMNOPQRSTUVWXYZ"[n]
  {
  }

  /** A request whose line is refused is answered with that status, whatever follows. */
  lemma BadLineFails(e: Expression, line: Bytes, rest: Bytes)
    requires IsLine(line)
    requires |line| > 8192 || e(line).None? || exists x :: x in UrlCodec.Pieces(e(line).value.query, ['&']) && '=' !in x
    ensures var r := Recv(e, NewContext(), line + rest).context;
      r.state == Error && r.status == if |line| > 8192 then 414 else 400
  {
    LineVerdict(e, NewContext(), line, rest);
  }

  /** So is one with a bad line after any good headers. */
  lemma BadHeaderFails(e: Expression, line: Bytes, verb: Bytes, path: Bytes, ps: seq<Pair>, version: Bytes,
                       hs: seq<Pair>, bad: Bytes, rest: Bytes)
    requires Written(e, line, verb, path, ps, version) && forall h :: h in hs ==> PlainHeader(h)
    requires IsLine(bad) && bad != ['\n'] && bad != ['\r', '\n']
    requires |bad| > 8192 || forall i: nat :: !UrlCodec.At(Chomp(bad), COLON, i)
    ensures var r := Recv(e, NewContext(), line + (HeaderLines(hs) + (bad + rest))).context;
      r.state == Error && r.status == if |bad| > 8192 then 414 else 400
  {
    LineReads(e, line, verb, path, ps, version, HeaderLines(hs) + (bad + rest));
    var c := RecvLine(e, NewContext(), line + (HeaderLines(hs) + (bad + rest))).context;
    HeadersThen(c, hs, bad + rest);
    HeadLineVerdict(c.(request := c.request.(headers := Stored(c.request.headers, hs))), bad, rest);
  }
}
