/** The chunked-body states of http_parser_execute: a byte-driven machine that is fed buffers cut anywhere, with a mark
    that defers the delivery of body bytes to the end of a chunk or of a buffer. */
module ChunkedBody {
  import opened ByteStrings

  const ULLONG_MAX: nat := 0xFFFF_FFFF_FFFF_FFFF
  const MAX_HEADER_SIZE: nat := 81920

  const CR: Byte := '\r'
  const LF: Byte := '\n'

  /** Complete: the message has ended; Trailer: a trailer field has begun, which is not followed any further. */
  datatype State =
    | SizeStart | Size | Parameters | SizeAlmostDone
    | FieldStart | HeadersAlmostDone
    | Data | DataAlmostDone | DataDone
    | Complete | Trailer

  datatype Errno = Ok | InvalidChunkSize | InvalidContentLength | HeaderOverflow | Strict | InvalidEofState

  /** body: all bytes given to on_body; headers, chunks, messages: calls of on_chunk_header, on_chunk_complete and
      on_message_complete. */
  datatype Parser = Parser(
    state: State,
    contentLength: nat,
    nread: nat,
    trailing: bool,
    errno: Errno,
    body: Bytes,
    headers: nat,
    chunks: nat,
    messages: nat)

  /** The state headers_done leaves for a chunked message. */
  function Start(): Parser { Parser(SizeStart, 0, 0, false, Ok, [], 0, 0, 0) }

  predicate Halted(p: Parser) { p.errno != Ok || p.state == Complete || p.state == Trailer }

  /** PARSING_HEADER: the states whose bytes count toward the header size. */
  predicate Counting(s: State) { !(s == Data || s == DataAlmostDone || s == DataDone) }

  function Unhex(c: Byte): (v: int)
    ensures -1 <= v < 16
  {
    if '0' <= c <= '9' then Code(c) - Code('0')
    else if 'a' <= c <= 'f' then Code(c) - Code('a') + 10
    else if 'A' <= c <= 'F' then Code(c) - Code('A') + 10
    else -1
  }

  function Fail(p: Parser, e: Errno): Parser { p.(errno := e) }

  // ---------------------------------------------------------------- one byte

  function SizeByte(p: Parser, ch: Byte): Parser {
    if ch == CR then p.(state := SizeAlmostDone)
    else if Unhex(ch) == -1 then
      if ch == ';' || ch == ' ' then p.(state := Parameters) else Fail(p, InvalidChunkSize)
    else if (ULLONG_MAX - 16) / 16 < p.contentLength then Fail(p, InvalidContentLength)
    else p.(contentLength := (p.contentLength * 16 + Unhex(ch)) % (ULLONG_MAX + 1))
  }

  function SizeEnd(p: Parser, ch: Byte): Parser {
    if ch != LF then Fail(p, Strict)
    else if p.contentLength == 0 then p.(nread := 0, trailing := true, state := FieldStart, headers := p.headers + 1)
    else p.(nread := 0, state := Data, headers := p.headers + 1)
  }

  /** End of a chunked message: the last chunk and the message are complete. */
  function MessageEnd(p: Parser, ch: Byte): Parser {
    if ch != LF then Fail(p, Strict)
    else p.(state := Complete, chunks := p.chunks + 1, messages := p.messages + 1)
  }

  function Field(p: Parser, ch: Byte): Parser {
    if ch == CR then p.(state := HeadersAlmostDone)
    else if ch == LF then MessageEnd(p, ch)
    else p.(state := Trailer)
  }

  function DataByte(p: Parser, ch: Byte): Parser {
    var left := if p.contentLength == 0 then 0 else p.contentLength - 1;
    p.(body := p.body + [ch], contentLength := left, state := if left == 0 then DataAlmostDone else Data)
  }

  function Dispatch(p: Parser, ch: Byte): Parser {
    match p.state
    case SizeStart =>
      if Unhex(ch) == -1 then Fail(p, InvalidChunkSize) else p.(contentLength := Unhex(ch), state := Size)
    case Size => SizeByte(p, ch)
    case Parameters => if ch == CR then p.(state := SizeAlmostDone) else p
    case SizeAlmostDone => SizeEnd(p, ch)
    case FieldStart => Field(p, ch)
    case HeadersAlmostDone => MessageEnd(p, ch)
    case Data => DataByte(p, ch)
    case DataAlmostDone => if ch != CR then Fail(p, Strict) else p.(state := DataDone)
    case DataDone => if ch != LF then Fail(p, Strict) else p.(nread := 0, state := SizeStart, chunks := p.chunks + 1)
    case _ => p
  }

  function Step(p: Parser, ch: Byte): Parser {
    if !Counting(p.state) then Dispatch(p, ch)
    else
      var p1 := p.(nread := p.nread + 1);
      if p1.nread > MAX_HEADER_SIZE then Fail(p1, HeaderOverflow) else Dispatch(p1, ch)
  }

  /** The bytes one after the other, until the parser halts. */
  function Fold(p: Parser, b: Bytes): Parser
    decreases |b|
  {
    if b == [] || Halted(p) then p else Fold(Step(p, b[0]), b[1..])
  }

  // ---------------------------------------------------------------- invariant

  /** The asserts in the states of the machine, and a chunk length that never reaches ULLONG_MAX. */
  ghost predicate Inv(p: Parser) {
    && p.contentLength <= ULLONG_MAX - 16
    && (p.state == SizeStart ==> p.nread == 0)
    && (p.state == Data ==> 0 < p.contentLength)
    && (p.state == DataAlmostDone ==> p.contentLength == 0)
    && (p.trailing <==>
      p.state == FieldStart || p.state == HeadersAlmostDone || p.state == Complete || p.state == Trailer)
    && (p.messages == if p.state == Complete then 1 else 0)
  }

  lemma StepKeeps(p: Parser, ch: Byte)
    requires Inv(p) && !Halted(p)
    ensures Step(p, ch).errno == Ok ==> Inv(Step(p, ch))
    ensures p.body <= Step(p, ch).body
  {
    if p.state == Size { SizeExact(p, ch); }
  }

  /** Which byte is refused in which state, and as what. */
  lemma RefusedAs(p: Parser, ch: Byte)
    requires !Halted(p)
    ensures var size := p.state == SizeStart || p.state == Size;
      Step(p, ch).errno ==
        if Counting(p.state) && p.nread >= 80 * 1024 then HeaderOverflow
        else if size && Unhex(ch) == -1 && !(p.state == Size && (ch == ';' || ch == ' ' || ch == '\r')) then
          InvalidChunkSize
        else if p.state == Size && Unhex(ch) != -1 && p.contentLength >= 0xFFF_FFFF_FFFF_FFFF then InvalidContentLength
        else if p.state == DataAlmostDone && ch != '\r' then Strict
        else if (p.state == SizeAlmostDone || p.state == HeadersAlmostDone || p.state == DataDone) && ch != '\n' then
          Strict
        else Ok
  {
  }

  /** The length of a chunk is computed without wrap-around. */
  lemma SizeExact(p: Parser, ch: Byte)
    requires p.state == Size && p.contentLength <= ULLONG_MAX - 16
    ensures Step(p, ch).contentLength <= ULLONG_MAX - 16
    ensures Unhex(ch) != -1 && Step(p, ch).errno == Ok ==> Step(p, ch).contentLength == p.contentLength * 16 + Unhex(ch)
  {
    if p.contentLength <= (ULLONG_MAX - 16) / 16 && Unhex(ch) >= 0 {
      var n := p.contentLength * 16 + Unhex(ch);
      assert n % (ULLONG_MAX + 1) == n;
    }
  }

  /** Feeding two buffers is feeding their concatenation. */
  lemma {:induction false} FoldSplits(p: Parser, a: Bytes, b: Bytes)
    ensures Fold(p, a + b) == Fold(Fold(p, a), b)
    decreases |a|
  {
    if a == [] {
      assert a + b == b;
    } else if !Halted(p) {
      assert (a + b)[1..] == a[1..] + b;
      FoldSplits(Step(p, a[0]), a[1..], b);
    }
  }

  lemma {:induction false} FoldKeeps(p: Parser, b: Bytes)
    requires Inv(p)
    ensures Fold(p, b).errno == Ok ==> Inv(Fold(p, b))
    ensures p.body <= Fold(p, b).body
    decreases |b|
  {
    if b != [] && !Halted(p) {
      StepKeeps(p, b[0]);
      if Step(p, b[0]).errno == Ok { FoldKeeps(Step(p, b[0]), b[1..]); }
    }
  }

  /** Body bytes of one chunk, as many as are left or fewer. */
  lemma {:induction false} DataRun(p: Parser, x: Bytes)
    requires p.errno == Ok && p.state == Data && 0 < |x| <= p.contentLength
    ensures Fold(p, x) ==
      p.(body := p.body + x, contentLength := p.contentLength - |x|,
         state := if |x| == p.contentLength then DataAlmostDone else Data)
    decreases |x|
  {
    if |x| > 1 {
      DataRun(Step(p, x[0]), x[1..]);
      assert p.body + [x[0]] + x[1..] == p.body + x;
    } else {
      assert x == [x[0]] && x[1..] == [];
    }
  }

  // ---------------------------------------------------------------- well-formed bodies

  function Digit(c: Byte): nat { if Unhex(c) < 0 then 0 else Unhex(c) }

  /** The number that hexadecimal digits continue from n. */
  function HexValue(digits: Bytes, n: nat): nat {
    if digits == [] then n else HexValue(digits[1..], n * 16 + Digit(digits[0]))
  }

  ghost predicate AllHex(digits: Bytes) { forall d :: d in digits ==> Unhex(d) >= 0 }

  /** The size of a chunk in hexadecimal, parameters that are skipped, and the data. */
  datatype Chunk = Chunk(digits: Bytes, parameters: Bytes, data: Bytes)

  ghost predicate ValidLine(c: Chunk) {
    && c.digits != [] && AllHex(c.digits)
    && (c.parameters == [] || c.parameters[0] == ';' || c.parameters[0] == ' ') && CR !in c.parameters
    && |c.digits| + |c.parameters| + 2 <= 80 * 1024
    && HexValue(c.digits, 0) == |c.data| <= 0xFFFF_FFFF_FFFF_FFEF
  }

  function SizeLine(c: Chunk): Bytes { c.digits + c.parameters + [CR, LF] }

  function Encoded(c: Chunk): Bytes { SizeLine(c) + c.data + [CR, LF] }

  function EncodedAll(cs: seq<Chunk>): Bytes { if cs == [] then [] else Encoded(cs[0]) + EncodedAll(cs[1..]) }

  /** Chunks, the last chunk of size zero, and the empty line that ends the message. */
  function EncodedBody(cs: seq<Chunk>, last: Chunk): Bytes { EncodedAll(cs) + SizeLine(last) + [CR, LF] }

  function DataOf(cs: seq<Chunk>): Bytes { if cs == [] then [] else cs[0].data + DataOf(cs[1..]) }

  ghost predicate ValidBody(cs: seq<Chunk>, last: Chunk) {
    (forall c :: c in cs ==> ValidLine(c) && c.data != []) && ValidLine(last) && last.data == []
  }

  /** The digits, in either case, and nothing else. */
  lemma HexDigits(c: Byte, n: nat)
    requires n < 16
    ensures Unhex(c) == n <==> c == "0123456789abcdef"[n] || c == "0123456789ABCDEF"[n]
  {
  }

  function Hexadecimal(n: nat): Bytes {
    (if n < 16 then [] else Hexadecimal(n / 16)) + ["0123456789abcdef"[n % 16]]
  }

  lemma {:induction false} HexAppend(digits: Bytes, d: Byte, n: nat)
    ensures HexValue(digits + [d], n) == HexValue(digits, n) * 16 + Digit(d)
  {
    if digits == [] {
      assert digits + [d] == [d] && [d][1..] == [];
    } else {
      assert (digits + [d])[1..] == digits[1..] + [d];
      HexAppend(digits[1..], d, n * 16 + Digit(digits[0]));
    }
  }

  /** A chunk size written in hexadecimal is read back. */
  lemma {:induction false} HexReadsBack(n: nat)
    ensures HexValue(Hexadecimal(n), 0) == n && AllHex(Hexadecimal(n)) && Hexadecimal(n) != []
  {
    var d := "0123456789abcdef"[n % 16];
    HexDigits(d, n % 16);
    if n < 16 {
      HexAppend([], d, 0);
      assert [] + [d] == [d];
    } else {
      HexReadsBack(n / 16);
      HexAppend(Hexadecimal(n / 16), d, 0);
    }
  }

  lemma {:induction false} HexGrows(digits: Bytes, n: nat)
    ensures HexValue(digits, n) >= n
  {
    if digits != [] { HexGrows(digits[1..], n * 16 + Digit(digits[0])); }
  }

  lemma {:induction false} DigitsRun(p: Parser, digits: Bytes)
    requires p.errno == Ok && p.state == Size && p.nread + |digits| <= MAX_HEADER_SIZE && AllHex(digits)
    requires HexValue(digits, p.contentLength) <= ULLONG_MAX - 16
    ensures Fold(p, digits) == p.(contentLength := HexValue(digits, p.contentLength), nread := p.nread + |digits|)
    decreases |digits|
  {
    if digits != [] {
      var n := DigitFirst(p, digits);
      DigitsRun(p.(contentLength := n, nread := p.nread + 1), digits[1..]);
    }
  }

  /** One digit more, without wrap-around. */
  lemma DigitFirst(p: Parser, digits: Bytes) returns (n: nat)
    requires p.errno == Ok && p.state == Size && p.nread + |digits| <= MAX_HEADER_SIZE && AllHex(digits) && digits != []
    requires HexValue(digits, p.contentLength) <= ULLONG_MAX - 16
    ensures HexValue(digits[1..], n) == HexValue(digits, p.contentLength)
    ensures Fold(p, digits) == Fold(p.(contentLength := n, nread := p.nread + 1), digits[1..])
  {
    n := p.contentLength * 16 + Digit(digits[0]);
    HexGrows(digits[1..], n);
    DigitStep(p, digits[0]);
  }

  lemma DigitStep(p: Parser, d: Byte)
    requires p.errno == Ok && p.state == Size && p.nread < MAX_HEADER_SIZE
    requires Unhex(d) >= 0 && p.contentLength * 16 + Unhex(d) <= ULLONG_MAX - 16
    ensures Step(p, d) == p.(contentLength := p.contentLength * 16 + Unhex(d), nread := p.nread + 1)
  {
    assert p.contentLength <= (ULLONG_MAX - 16) / 16;
  }

  lemma {:induction false} ParametersRun(p: Parser, x: Bytes)
    requires p.errno == Ok && p.state == Parameters && p.nread + |x| <= MAX_HEADER_SIZE && CR !in x
    ensures Fold(p, x) == p.(nread := p.nread + |x|)
    decreases |x|
  {
    if x != [] { ParametersRun(p.(nread := p.nread + 1), x[1..]); }
  }

  /** The digits and the parameters of a size line. */
  lemma LineRun(p: Parser, c: Chunk)
    requires p.errno == Ok && p.state == SizeStart && p.nread == 0 && ValidLine(c)
    ensures var q := Fold(p, c.digits + c.parameters);
      && (q.state == Size || q.state == Parameters)
      && q == p.(state := q.state, contentLength := |c.data|, nread := |c.digits| + |c.parameters|)
  {
    var d, x := c.digits, c.parameters;
    var p1 := p.(state := Size, contentLength := Unhex(d[0]), nread := 1);
    assert Step(p, d[0]) == p1;
    DigitsRun(p1, d[1..]);
    FoldSplits(p, d, x);
    var p2 := p.(state := Size, contentLength := |c.data|, nread := |d|);
    assert Fold(p, d) == p2;
    if x != [] { ParametersRun(Step(p2, x[0]), x[1..]); }
  }

  lemma OneByte(p: Parser, a: Byte)
    requires !Halted(p)
    ensures Fold(p, [a]) == Step(p, a)
  {
    assert [a][1..] == [];
  }

  lemma TwoBytes(p: Parser, a: Byte, b: Byte)
    requires !Halted(p) && !Halted(Step(p, a))
    ensures Fold(p, [a, b]) == Step(Step(p, a), b)
  {
    FoldSplits(p, [a], [b]);
    OneByte(p, a);
    OneByte(Step(p, a), b);
    assert [a] + [b] == [a, b];
  }

  lemma SizeLineRun(p: Parser, c: Chunk)
    requires p.errno == Ok && p.state == SizeStart && p.nread == 0 && ValidLine(c)
    ensures Fold(p, SizeLine(c)) ==
      p.(state := if c.data == [] then FieldStart else Data, contentLength := |c.data|, nread := 0,
         trailing := p.trailing || c.data == [], headers := p.headers + 1)
  {
    LineRun(p, c);
    FoldSplits(p, c.digits + c.parameters, [CR, LF]);
    TwoBytes(Fold(p, c.digits + c.parameters), CR, LF);
  }

  lemma ChunkRun(p: Parser, c: Chunk)
    requires p.errno == Ok && p.state == SizeStart && p.nread == 0 && ValidLine(c) && c.data != []
    ensures Fold(p, Encoded(c)) ==
      p.(contentLength := 0, headers := p.headers + 1, chunks := p.chunks + 1, body := p.body + c.data)
  {
    SizeLineRun(p, c);
    FoldSplits(p, SizeLine(c), c.data);
    FoldSplits(p, SizeLine(c) + c.data, [CR, LF]);
    var p1 := p.(state := Data, contentLength := |c.data|, nread := 0, headers := p.headers + 1);
    DataRun(p1, c.data);
    DataEndRun(p1.(state := DataAlmostDone, contentLength := 0, body := p.body + c.data));
  }

  lemma DataEndRun(p: Parser)
    requires p.errno == Ok && p.state == DataAlmostDone
    ensures Fold(p, [CR, LF]) == p.(state := SizeStart, nread := 0, chunks := p.chunks + 1)
  {
    TwoBytes(p, CR, LF);
  }

  lemma {:induction false} ChunksRun(p: Parser, cs: seq<Chunk>)
    requires p.errno == Ok && p.state == SizeStart && p.nread == 0 && p.contentLength == 0
    requires forall c :: c in cs ==> ValidLine(c) && c.data != []
    ensures Fold(p, EncodedAll(cs)) ==
      p.(headers := p.headers + |cs|, chunks := p.chunks + |cs|, body := p.body + DataOf(cs))
    decreases |cs|
  {
    if cs != [] {
      var p1 := p.(headers := p.headers + 1, chunks := p.chunks + 1, body := p.body + cs[0].data);
      ChunkRun(p, cs[0]);
      FoldSplits(p, Encoded(cs[0]), EncodedAll(cs[1..]));
      ChunksRun(p1, cs[1..]);
      Regroup(p.body, cs[0].data, DataOf(cs[1..]));
    } else {
      assert p.body + [] == p.body;
    }
  }

  /** All but the last byte of a well-formed body. */
  lemma BodyButLast(cs: seq<Chunk>, last: Chunk)
    requires ValidBody(cs, last)
    ensures Fold(Start(), EncodedAll(cs) + SizeLine(last) + [CR]) ==
      Parser(HeadersAlmostDone, 0, 1, true, Ok, DataOf(cs), |cs| + 1, |cs|, 0)
  {
    ChunksRun(Start(), cs);
    assert [] + DataOf(cs) == DataOf(cs);
    var p := Parser(SizeStart, 0, 0, false, Ok, DataOf(cs), |cs|, |cs|, 0);
    assert Fold(Start(), EncodedAll(cs)) == p;
    FoldSplits(Start(), EncodedAll(cs), SizeLine(last));
    FoldSplits(Start(), EncodedAll(cs) + SizeLine(last), [CR]);
    LastLine(p, last);
  }

  lemma LastLine(p: Parser, last: Chunk)
    requires p.errno == Ok && p.state == SizeStart && p.nread == 0 && !p.trailing && ValidLine(last) && last.data == []
    ensures Fold(Fold(p, SizeLine(last)), [CR]) ==
      p.(state := HeadersAlmostDone, contentLength := 0, nread := 1, trailing := true, headers := p.headers + 1)
  {
    SizeLineRun(p, last);
    OneByte(Fold(p, SizeLine(last)), CR);
  }

  /** Every split of a well-formed body into buffers delivers exactly its data, and completes once, at its last byte. */
  lemma BodyDelivered(cs: seq<Chunk>, last: Chunk, pieces: seq<Bytes>)
    requires ValidBody(cs, last) && Concat(pieces) == EncodedBody(cs, last)
    ensures FoldAll(Start(), pieces) == Parser(Complete, 0, 2, true, Ok, DataOf(cs), |cs| + 1, |cs| + 1, 1)
    ensures forall n :: 0 <= n < |EncodedBody(cs, last)| ==> Fold(Start(), EncodedBody(cs, last)[..n]).messages == 0
  {
    var b := EncodedAll(cs) + SizeLine(last) + [CR];
    BodyButLast(cs, last);
    assert EncodedBody(cs, last) == b + [LF];
    FoldSplits(Start(), b, [LF]);
    OneByte(Fold(Start(), b), LF);
    FoldAllIs(Start(), pieces);
    forall n | 0 <= n < |EncodedBody(cs, last)| ensures Fold(Start(), EncodedBody(cs, last)[..n]).messages == 0 {
      NotBefore(cs, last, n);
    }
  }

  lemma NotBefore(cs: seq<Chunk>, last: Chunk, n: nat)
    requires ValidBody(cs, last) && n < |EncodedBody(cs, last)|
    ensures Fold(Start(), EncodedBody(cs, last)[..n]).messages == 0
  {
    var b := EncodedAll(cs) + SizeLine(last) + [CR];
    BodyButLast(cs, last);
    assert EncodedBody(cs, last)[..n] == b[..n] && b == b[..n] + b[n..];
    FoldSplits(Start(), b[..n], b[n..]);
    MessagesGrow(Fold(Start(), b[..n]), b[n..]);
  }

  lemma {:induction false} MessagesGrow(p: Parser, b: Bytes)
    ensures p.messages <= Fold(p, b).messages
    decreases |b|
  {
    if b != [] && !Halted(p) { MessagesGrow(Step(p, b[0]), b[1..]); }
  }

  function FoldAll(p: Parser, pieces: seq<Bytes>): Parser
    decreases |pieces|
  {
    if pieces == [] then p else FoldAll(Fold(p, pieces[0]), pieces[1..])
  }

  lemma {:induction false} FoldAllIs(p: Parser, pieces: seq<Bytes>)
    ensures FoldAll(p, pieces) == Fold(p, Concat(pieces))
    decreases |pieces|
  {
    if pieces != [] {
      FoldSplits(p, pieces[0], Concat(pieces[1..]));
      FoldAllIs(Fold(p, pieces[0]), pieces[1..]);
    }
  }

  // ---------------------------------------------------------------- only well-formed bodies

  ghost predicate Completes(p: Parser, b: Bytes) { Fold(p, b).errno == Ok && Fold(p, b).state == Complete }

  /** A parser that completes has a byte to read, and survives it. */
  lemma FirstSurvives(p: Parser, b: Bytes)
    requires Completes(p, b) && !Halted(p)
    ensures b != [] && Step(p, b[0]).errno == Ok && Completes(Step(p, b[0]), b[1..])
  {
    HaltedStays(Step(p, b[0]), b[1..]);
  }

  lemma HaltedStays(p: Parser, b: Bytes)
    ensures Halted(p) ==> Fold(p, b) == p
  {
  }

  /** A carriage return in a size line is followed by a line feed. */
  lemma LineEnds(p: Parser, b: Bytes)
    requires p.errno == Ok && p.state == SizeAlmostDone && Completes(p, b)
    ensures p.nread < MAX_HEADER_SIZE && b != [] && b == [LF] + b[1..]
  {
    FirstSurvives(p, b);
  }

  lemma {:induction false} ParametersInvert(p: Parser, b: Bytes) returns (x: Bytes, rest: Bytes)
    requires p.errno == Ok && p.state == Parameters && Completes(p, b)
    ensures b == x + [CR, LF] + rest && CR !in x && p.nread + |x| + 2 <= MAX_HEADER_SIZE
    decreases |b|
  {
    FirstSurvives(p, b);
    var p1 := p.(nread := p.nread + 1);
    if b[0] == CR {
      LineEnds(p1.(state := SizeAlmostDone), b[1..]);
      x, rest := [], b[2..];
    } else {
      var y;
      y, rest := ParametersInvert(p1, b[1..]);
      x := [b[0]] + y;
    }
  }

  /** What is left of a size line: digits, parameters, the line end. */
  ghost predicate LineTail(p: Parser, b: Bytes, digits: Bytes, x: Bytes, rest: Bytes) {
    && b == digits + x + [CR, LF] + rest
    && AllHex(digits) && HexValue(digits, p.contentLength) <= ULLONG_MAX - 16
    && (x == [] || x[0] == ';' || x[0] == ' ') && CR !in x
    && p.nread + |digits| + |x| + 2 <= MAX_HEADER_SIZE
  }

  lemma {:induction false} LineInverts(p: Parser, b: Bytes) returns (digits: Bytes, x: Bytes, rest: Bytes)
    requires p.errno == Ok && p.state == Size && p.contentLength <= ULLONG_MAX - 16 && Completes(p, b)
    ensures LineTail(p, b, digits, x, rest)
    decreases |b|
  {
    FirstSurvives(p, b);
    if Unhex(b[0]) == -1 {
      digits := [];
      x, rest := DigitsEnd(p, b);
    } else {
      DigitFits(p, b[0]);
      var ds;
      ds, x, rest := LineInverts(Step(p, b[0]), b[1..]);
      digits := [b[0]] + ds;
      DigitPrepends(p, b, ds, x, rest);
    }
  }

  lemma DigitsEnd(p: Parser, b: Bytes) returns (x: Bytes, rest: Bytes)
    requires p.errno == Ok && p.state == Size && p.contentLength <= ULLONG_MAX - 16 && Completes(p, b)
    requires b != [] && Unhex(b[0]) == -1
    ensures LineTail(p, b, [], x, rest)
  {
    FirstSurvives(p, b);
    if b[0] == CR {
      LineEnds(Step(p, b[0]), b[1..]);
      x, rest := [], b[2..];
    } else {
      var y;
      y, rest := ParametersInvert(Step(p, b[0]), b[1..]);
      x := [b[0]] + y;
    }
  }

  lemma DigitPrepends(p: Parser, b: Bytes, ds: Bytes, x: Bytes, rest: Bytes)
    requires b != [] && Unhex(b[0]) >= 0
    requires LineTail(p.(contentLength := p.contentLength * 16 + Unhex(b[0]), nread := p.nread + 1), b[1..], ds, x,
      rest)
    ensures LineTail(p, b, [b[0]] + ds, x, rest)
  {
    assert ([b[0]] + ds)[1..] == ds;
    assert b == [b[0]] + b[1..];
  }

  lemma DigitFits(p: Parser, d: Byte)
    requires p.errno == Ok && p.state == Size && Unhex(d) >= 0 && Step(p, d).errno == Ok
    ensures p.contentLength * 16 + Unhex(d) <= ULLONG_MAX - 16
    ensures Step(p, d) == p.(contentLength := p.contentLength * 16 + Unhex(d), nread := p.nread + 1)
  {
  }

  /** The first size line of a body that completes. */
  lemma SizeLineInverts(p: Parser, b: Bytes) returns (digits: Bytes, x: Bytes, rest: Bytes)
    requires p.errno == Ok && p.state == SizeStart && p.nread == 0 && Completes(p, b)
    ensures digits != [] && LineTail(p.(contentLength := 0), b, digits, x, rest)
  {
    FirstSurvives(p, b);
    var ds;
    ds, x, rest := LineInverts(Step(p, b[0]), b[1..]);
    digits := [b[0]] + ds;
    assert digits[1..] == ds;
    assert b == digits + x + [CR, LF] + rest;
  }

  /** The bytes that end the message: an empty line, with or without its carriage return. */
  ghost predicate Ends(end: Bytes) { end == [CR, LF] || end == [LF] }

  ghost predicate Starts(cs: seq<Chunk>, last: Chunk, end: Bytes, b: Bytes) {
    ValidBody(cs, last) && Ends(end) && EncodedAll(cs) + SizeLine(last) + end <= b
  }

  lemma EndInverts(p: Parser, b: Bytes) returns (end: Bytes)
    requires p.errno == Ok && p.state == FieldStart && Completes(p, b)
    ensures Ends(end) && end <= b
  {
    FirstSurvives(p, b);
    if b[0] == LF {
      end := [LF];
    } else {
      HaltedStays(Step(p, b[0]), b[1..]);
      FirstSurvives(Step(p, b[0]), b[1..]);
      end := [CR, LF];
      assert b[1..][0] == b[1];
    }
  }

  /** The data of a chunk that completes, and its end. */
  lemma DataInverts(p: Parser, b: Bytes) returns (rest: Bytes)
    requires p.errno == Ok && p.state == Data && 0 < p.contentLength && Completes(p, b)
    ensures p.contentLength <= |b| && b == b[..p.contentLength] + [CR, LF] + rest
  {
    var n := p.contentLength;
    FirstSurvives(p, b);
    if |b| <= n {
      DataRun(p, b);
      assert false;
    } else {
      assert b == b[..n] + b[n..];
      FoldSplits(p, b[..n], b[n..]);
      DataRun(p, b[..n]);
      var p1 := Fold(p, b[..n]);
      FirstSurvives(p1, b[n..]);
      FirstSurvives(Step(p1, b[n]), b[n..][1..]);
      assert b[n..][1..][0] == b[n + 1];
      rest := b[n + 2..];
    }
  }

  lemma {:induction false} BodyInverts(p: Parser, b: Bytes) returns (cs: seq<Chunk>, last: Chunk, end: Bytes)
    requires p.errno == Ok && p.state == SizeStart && p.nread == 0 && Completes(p, b)
    ensures Starts(cs, last, end, b)
    decreases |b|
  {
    var digits, x, rest := SizeLineInverts(p, b);
    if HexValue(digits, 0) == 0 {
      cs := [];
      last, end := LastInverts(p, b, digits, x, rest);
    } else {
      var c, after := ChunkInverts(p, b, digits, x, rest);
      var cs1;
      cs1, last, end := BodyInverts(Fold(p, Encoded(c)), after);
      cs := [c] + cs1;
      Prepends(c, cs1, last, end, after);
    }
  }

  lemma LastInverts(p: Parser, b: Bytes, digits: Bytes, x: Bytes, rest: Bytes) returns (last: Chunk, end: Bytes)
    requires p.errno == Ok && p.state == SizeStart && p.nread == 0 && Completes(p, b)
    requires digits != [] && LineTail(p.(contentLength := 0), b, digits, x, rest) && HexValue(digits, 0) == 0
    ensures Starts([], last, end, b)
  {
    last := Chunk(digits, x, []);
    FoldSplits(p, SizeLine(last), rest);
    SizeLineRun(p, last);
    assert b == SizeLine(last) + rest;
    end := EndInverts(Fold(p, SizeLine(last)), rest);
    assert EncodedAll([]) + SizeLine(last) + end == SizeLine(last) + end;
  }

  lemma ChunkInverts(p: Parser, b: Bytes, digits: Bytes, x: Bytes, rest: Bytes) returns (c: Chunk, after: Bytes)
    requires p.errno == Ok && p.state == SizeStart && p.nread == 0 && Completes(p, b)
    requires digits != [] && LineTail(p.(contentLength := 0), b, digits, x, rest) && HexValue(digits, 0) > 0
    ensures ValidLine(c) && c.data != [] && b == Encoded(c) + after && |after| < |b|
    ensures var q := Fold(p, Encoded(c)); q.errno == Ok && q.state == SizeStart && q.nread == 0 && Completes(q, after)
  {
    var n := HexValue(digits, 0);
    var filler := Chunk(digits, x, seq(n, _ => CR));
    FoldSplits(p, SizeLine(filler), rest);
    SizeLineRun(p, filler);
    assert b == SizeLine(filler) + rest;
    after := DataInverts(Fold(p, SizeLine(filler)), rest);
    c := Chunk(digits, x, rest[..n]);
    ChunkEnds(b, c, rest, after);
    FoldSplits(p, Encoded(c), after);
    ChunkRun(p, c);
  }

  lemma ChunkEnds(b: Bytes, c: Chunk, rest: Bytes, after: Bytes)
    requires b == SizeLine(c) + rest && rest == c.data + [CR, LF] + after
    ensures b == Encoded(c) + after
  {
  }

  lemma Prepends(c: Chunk, cs: seq<Chunk>, last: Chunk, end: Bytes, after: Bytes)
    requires ValidLine(c) && c.data != [] && Starts(cs, last, end, after)
    ensures Starts([c] + cs, last, end, Encoded(c) + after)
  {
    assert ([c] + cs)[1..] == cs;
    assert EncodedAll([c] + cs) + SizeLine(last) + end == Encoded(c) + (EncodedAll(cs) + SizeLine(last) + end);
  }

  /** The parser completes on exactly the inputs that start with a well-formed body, and then has delivered its data. */
  lemma CompletesIffWellFormed(b: Bytes)
    ensures Completes(Start(), b) <==> exists cs, last, end :: Starts(cs, last, end, b)
    ensures forall cs, last, end :: Starts(cs, last, end, b) ==> Fold(Start(), b).body == DataOf(cs)
  {
    if Completes(Start(), b) {
      var cs, last, end := BodyInverts(Start(), b);
    }
    forall cs, last, end | Starts(cs, last, end, b)
      ensures Completes(Start(), b) && Fold(Start(), b).body == DataOf(cs)
    {
      BodyCompletes(cs, last, end, b);
    }
  }

  lemma BodyCompletes(cs: seq<Chunk>, last: Chunk, end: Bytes, b: Bytes)
    requires Starts(cs, last, end, b)
    ensures Completes(Start(), b) && Fold(Start(), b).body == DataOf(cs)
  {
    var a := EncodedAll(cs) + SizeLine(last);
    var rest := b[|a + end|..];
    assert b == (a + end) + rest;
    FoldSplits(Start(), a + end, rest);
    FoldSplits(Start(), a, end);
    BeforeEnd(cs, last);
    EndCompletes(Fold(Start(), a), end);
    HaltedStays(Fold(Start(), a + end), rest);
  }

  lemma BeforeEnd(cs: seq<Chunk>, last: Chunk)
    requires ValidBody(cs, last)
    ensures var p := Fold(Start(), EncodedAll(cs) + SizeLine(last));
      p.errno == Ok && p.state == FieldStart && p.nread == 0 && p.body == DataOf(cs)
  {
    ChunksRun(Start(), cs);
    assert [] + DataOf(cs) == DataOf(cs);
    FoldSplits(Start(), EncodedAll(cs), SizeLine(last));
    SizeLineRun(Fold(Start(), EncodedAll(cs)), last);
  }

  lemma EndCompletes(p: Parser, end: Bytes)
    requires p.errno == Ok && p.state == FieldStart && p.nread == 0 && Ends(end)
    ensures Completes(p, end) && Fold(p, end).body == p.body
  {
    if end == [LF] { OneByte(p, LF); } else { TwoBytes(p, CR, LF); }
  }

  // ---------------------------------------------------------------- deferred delivery

  /** The marked bytes, not yet given to on_body. */
  ghost function Pending(data: Bytes, mark: int, i: nat): Bytes
    requires mark <= i <= |data|
  {
    if mark < 0 then [] else data[mark..i]
  }

  /** After i bytes of data q is what p becomes byte by byte, but for the marked bytes. */
  ghost predicate Synced(p: Parser, data: Bytes, i: nat, mark: int, q: Parser) {
    && -1 <= mark <= i <= |data|
    && (mark >= 0 ==> q.state == Data || q.state == DataAlmostDone)
    && q.errno == Ok && Inv(q)
    && q.(body := q.body + Pending(data, mark, i)) == Fold(p, data[..i])
  }

  lemma FoldNext(p: Parser, data: Bytes, i: nat, n: nat)
    requires i + n <= |data|
    ensures Fold(p, data[..i + n]) == Fold(Fold(p, data[..i]), data[i..i + n])
  {
    assert data[..i + n] == data[..i] + data[i..i + n];
    FoldSplits(p, data[..i], data[i..i + n]);
  }

  /** Outside chunk data a step neither reads nor writes the delivered bytes. */
  lemma StepFrame(q: Parser, b: Bytes, ch: Byte)
    requires q.state != Data
    ensures Step(q.(body := b), ch) == Step(q, ch).(body := b)
  {
  }

  lemma SyncByte(p: Parser, data: Bytes, i: nat, mark: int, q: Parser)
    requires Synced(p, data, i, mark, q) && i < |data| && q.state != Data && !Halted(q)
    ensures var r := Step(q, data[i]).(body := q.body + Pending(data, mark, i));
      r == Fold(p, data[..i + 1]) && (r.errno == Ok ==> Synced(p, data, i + 1, -1, r))
  {
    var b := q.body + Pending(data, mark, i);
    FoldNext(p, data, i, 1);
    assert data[i..i + 1] == [data[i]];
    OneByte(q.(body := b), data[i]);
    StepFrame(q, b, data[i]);
    StepKeeps(q, data[i]);
    var r := Step(q, data[i]).(body := b);
    assert r.body + [] == r.body;
  }

  lemma SyncData(p: Parser, data: Bytes, i: nat, mark: int, q: Parser, n: nat)
    requires Synced(p, data, i, mark, q) && q.state == Data && 0 < n <= q.contentLength && i + n <= |data|
    ensures Synced(p, data, i + n, if mark < 0 then i else mark,
      q.(contentLength := q.contentLength - n, state := if n == q.contentLength then DataAlmostDone else Data))
  {
    FoldNext(p, data, i, n);
    DataRun(q.(body := q.body + Pending(data, mark, i)), data[i..i + n]);
    PendingGrows(q.body, data, mark, i, n);
  }

  lemma PendingGrows(b: Bytes, data: Bytes, mark: int, i: nat, n: nat)
    requires mark <= i && i + n <= |data|
    ensures (b + Pending(data, mark, i)) + data[i..i + n] == b + Pending(data, if mark < 0 then i else mark, i + n)
  {
    var from := if mark < 0 then i else mark;
    assert Pending(data, mark, i) + data[i..i + n] == data[from..i + n];
  }

  /** What a whole call does: the same as byte by byte, except that after an error marked bytes stay undelivered. */
  ghost predicate Executed(p: Parser, data: Bytes, q: Parser) {
    var f := Fold(p, data);
    q.errno == f.errno && (if f.errno == Ok then q == f && Inv(q) else q.body <= f.body)
  }

  lemma SyncHalted(p: Parser, data: Bytes, i: nat, r: Parser)
    requires i <= |data| && Fold(p, data[..i]) == r && Halted(r)
    ensures Fold(p, data) == r
  {
    assert data == data[..i] + data[i..];
    FoldSplits(p, data[..i], data[i..]);
    HaltedStays(r, data[i..]);
  }

  lemma SyncFails(p: Parser, data: Bytes, i: nat, r: Parser, q: Parser)
    requires i <= |data| && Fold(p, data[..i]) == r && r.errno != Ok && q.errno == r.errno && q.body <= r.body
    requires i > 0 && Fold(p, data[..i - 1]).errno == Ok
    ensures Executed(p, data, q) && Consumed(p, data, i - 1, q)
  {
    SyncHalted(p, data, i, r);
  }

  lemma SyncByteFails(p: Parser, data: Bytes, i: nat, mark: int, q: Parser)
    requires Synced(p, data, i, mark, q) && i < |data| && q.state != Data && !Halted(q)
    requires Step(q, data[i]).errno != Ok
    ensures Executed(p, data, Step(q, data[i])) && Consumed(p, data, i, Step(q, data[i]))
  {
    var b := q.body + Pending(data, mark, i);
    SyncByte(p, data, i, mark, q);
    StepFrame(q, q.body, data[i]);
    SyncFails(p, data, i + 1, Step(q, data[i]).(body := b), Step(q, data[i]));
  }

  // ---------------------------------------------------------------- the object

  function Smaller(a: nat, b: nat): nat { if a <= b then a else b }

  class HttpParser {
    var state: State
    var contentLength: nat
    var nread: nat
    var trailing: bool
    var errno: Errno
    var body: Bytes
    var headers: nat
    var chunks: nat
    var messages: nat

    ghost function View(): Parser
      reads this
    {
      Parser(state, contentLength, nread, trailing, errno, body, headers, chunks, messages)
    }

    constructor ()
      ensures View() == Start()
    {
      state, contentLength, nread, trailing, errno, body := SizeStart, 0, 0, false, Ok, [];
      headers, chunks, messages := 0, 0, 0;
    }

    method SizeState(ch: Byte)
      requires state == Size
      modifies `state, `contentLength, `errno
      ensures View() == SizeByte(old(View()), ch)
    {
      if ch == CR {
        state := SizeAlmostDone;
        return;
      }
      var v := Unhex(ch);
      if v == -1 {
        if ch == ';' || ch == ' ' { state := Parameters; } else { errno := InvalidChunkSize; }
        return;
      }
      var t := (contentLength * 16 + v) % (ULLONG_MAX + 1);
      if (ULLONG_MAX - 16) / 16 < contentLength {
        errno := InvalidContentLength;
        return;
      }
      contentLength := t;
    }

    method SizeEndState(ch: Byte)
      requires state == SizeAlmostDone
      modifies `state, `nread, `trailing, `headers, `errno
      ensures View() == SizeEnd(old(View()), ch)
    {
      if ch != LF {
        errno := Strict;
        return;
      }
      nread := 0;
      if contentLength == 0 {
        trailing := true;
        state := FieldStart;
      } else {
        state := Data;
      }
      headers := headers + 1;
    }

    method MessageEndState(ch: Byte)
      modifies `state, `chunks, `messages, `errno
      ensures View() == MessageEnd(old(View()), ch)
    {
      if ch != LF {
        errno := Strict;
        return;
      }
      state := Complete;
      chunks := chunks + 1;
      messages := messages + 1;
    }

    /** The switch, for every state but that of chunk data, with the asserts of its cases. */
    method Switch(ch: Byte)
      requires state != Data && (state == SizeStart ==> nread == 1) && (state == DataAlmostDone ==> contentLength == 0)
      modifies this
      ensures View() == Dispatch(old(View()), ch)
    {
      match state
      case SizeStart =>
        assert nread == 1;
        var v := Unhex(ch);
        if v == -1 { errno := InvalidChunkSize; } else { contentLength, state := v, Size; }
      case Size => SizeState(ch);
      case Parameters => if ch == CR { state := SizeAlmostDone; }
      case SizeAlmostDone => SizeEndState(ch);
      case FieldStart =>
        if ch == CR { state := HeadersAlmostDone; }
        else if ch == LF { MessageEndState(ch); }
        else { state := Trailer; }
      case HeadersAlmostDone => MessageEndState(ch);
      case DataAlmostDone =>
        assert contentLength == 0;
        if ch != CR { errno := Strict; } else { state := DataDone; }
      case DataDone =>
        if ch != LF { errno := Strict; } else { nread, state, chunks := 0, SizeStart, chunks + 1; }
      case _ =>
    }

    /** One byte outside chunk data: it counts toward the header size, and goes through the switch. */
    method Advance(ch: Byte)
      requires state != Data && Inv(View())
      modifies this
      ensures View() == Step(old(View()), ch)
    {
      if Counting(state) {
        nread := nread + 1;
        if nread > MAX_HEADER_SIZE {
          errno := HeaderOverflow;
          return;
        }
      }
      Switch(ch);
    }

    /** As much of the chunk data as this buffer holds: marked, not yet delivered. */
    method TakeData(data: Bytes, i: nat, mark: int, ghost p: Parser) returns (toRead: nat, mark': int)
      requires Synced(p, data, i, mark, View()) && i < |data| && state == Data
      modifies `state, `contentLength
      ensures 0 < toRead && Synced(p, data, i + toRead, mark', View())
    {
      assert contentLength != 0 && contentLength != ULLONG_MAX;
      toRead := Smaller(contentLength, |data| - i);
      SyncData(p, data, i, mark, View(), toRead);
      mark' := if mark < 0 then i else mark;
      contentLength := contentLength - toRead;
      if contentLength == 0 { state := DataAlmostDone; }
    }

    /** Any other byte: the end of a chunk's data delivers what is marked. */
    method TakeByte(data: Bytes, i: nat, mark: int, ghost p: Parser)
      requires Synced(p, data, i, mark, View()) && i < |data| && state != Data && !Halted(View())
      modifies this
      ensures errno == Ok ==> Synced(p, data, i + 1, -1, View())
      ensures errno != Ok ==> Executed(p, data, View()) && Consumed(p, data, i, View())
    {
      ghost var q := View();
      Advance(data[i]);
      if errno != Ok {
        SyncByteFails(p, data, i, mark, q);
        return;
      }
      SyncByte(p, data, i, mark, q);
      if mark >= 0 { body := body + data[mark..i]; }
    }

    /** http_parser_execute, up to the end of the message. */
    method Execute(data: Bytes) returns (consumed: nat)
      requires errno == Ok ==> Inv(View())
      modifies this
      ensures old(errno) != Ok ==> consumed == 0 && View() == old(View())
      ensures old(errno) == Ok && data == [] && old(state) != Complete ==> View() == Fail(old(View()), InvalidEofState)
      ensures old(errno) == Ok && data != [] ==>
        Executed(old(View()), data, View()) && Consumed(old(View()), data, consumed, View())
    {
      if errno != Ok { return 0; }
      if data == [] {
        if state == Complete { return 0; }
        errno := InvalidEofState;
        return 1;
      }
      consumed := ExecuteSome(data);
    }

    method ExecuteSome(data: Bytes) returns (consumed: nat)
      requires errno == Ok && Inv(View()) && data != []
      modifies this
      ensures Executed(old(View()), data, View()) && Consumed(old(View()), data, consumed, View())
    {
      ghost var p := View();
      consumed := 0;
      var mark := -1;
      assert body + [] == body;
      while consumed < |data| && state != Complete && state != Trailer
        invariant Synced(p, data, consumed, mark, View())
        decreases |data| - consumed
      {
        if state == Data {
          var n;
          n, mark := TakeData(data, consumed, mark, p);
          consumed := consumed + n;
        } else {
          TakeByte(data, consumed, mark, p);
          if errno != Ok { return; }
          mark := -1;
          consumed := consumed + 1;
        }
      }
      if mark >= 0 { body := body + data[mark..consumed]; }
      SyncEnds(p, data, consumed, View());
    }

    /** Every split of a well-formed body into non-empty buffers, given to http_parser_execute one after the other,
        delivers exactly its data and completes the message once, with the last byte; each call takes its whole
        buffer. */
    method DeliverBody(pieces: seq<Bytes>, ghost cs: seq<Chunk>, ghost last: Chunk) returns (counts: seq<nat>)
      requires View() == Start() && ValidBody(cs, last) && Concat(pieces) == EncodedBody(cs, last)
      requires forall i :: 0 <= i < |pieces| ==> pieces[i] != []
      modifies this
      ensures View() == Parser(Complete, 0, 2, true, Ok, DataOf(cs), |cs| + 1, |cs| + 1, 1)
      ensures |counts| == |pieces| && forall i :: 0 <= i < |pieces| ==> counts[i] == |pieces[i]|
    {
      counts := [];
      for i := 0 to |pieces|
        invariant Reached(pieces, i, View()) && |counts| == i
        invariant forall k :: 0 <= k < i ==> counts[k] == |pieces[k]|
      {
        var n := DeliverPiece(pieces, i, cs, last);
        counts := counts + [n];
      }
      BodyReached(cs, last, pieces);
    }

    method DeliverPiece(pieces: seq<Bytes>, i: nat, ghost cs: seq<Chunk>, ghost last: Chunk) returns (n: nat)
      requires ValidBody(cs, last) && Concat(pieces) == EncodedBody(cs, last)
      requires i < |pieces| && pieces[i] != [] && Reached(pieces, i, View())
      modifies this
      ensures n == |pieces[i]| && Reached(pieces, i + 1, View())
    {
      PieceRuns(cs, last, pieces, i);
      n := Execute(pieces[i]);
      PieceTaken(cs, last, pieces, i, n, View());
    }
  }

  /** The pieces before i have been taken. */
  ghost predicate Reached(pieces: seq<Bytes>, i: nat, p: Parser)
    requires i <= |pieces|
  {
    p.errno == Ok && Inv(p) && p == Fold(Start(), Concat(pieces[..i]))
  }

  lemma BodyReached(cs: seq<Chunk>, last: Chunk, pieces: seq<Bytes>)
    requires ValidBody(cs, last) && Concat(pieces) == EncodedBody(cs, last)
    ensures forall p :: Reached(pieces, |pieces|, p) ==>
      p == Parser(Complete, 0, 2, true, Ok, DataOf(cs), |cs| + 1, |cs| + 1, 1)
  {
    BodyDelivered(cs, last, pieces);
    FoldAllIs(Start(), pieces);
    assert pieces[..|pieces|] == pieces;
  }

  /** What a call returns: the bytes taken, all of them unless the message ended, or the place of the byte that
      failed. */
  ghost predicate Consumed(p: Parser, data: Bytes, n: nat, q: Parser) {
    if q.errno == Ok then n <= |data| && Fold(p, data[..n]) == q && (n < |data| ==> Halted(q))
    else n < |data| && Fold(p, data[..n]).errno == Ok && Fold(p, data[..n + 1]).errno == q.errno
  }

  /** Before its last byte a well-formed body neither fails nor ends. */
  lemma BodyRuns(cs: seq<Chunk>, last: Chunk, n: nat)
    requires ValidBody(cs, last) && n <= |EncodedBody(cs, last)|
    ensures Fold(Start(), EncodedBody(cs, last)[..n]).errno == Ok
    ensures n < |EncodedBody(cs, last)| ==> !Halted(Fold(Start(), EncodedBody(cs, last)[..n]))
  {
    var b := EncodedBody(cs, last);
    assert Concat([b]) == b + [] == b;
    BodyDelivered(cs, last, [b]);
    FoldAllIs(Start(), [b]);
    assert b == b[..n] + b[n..];
    FoldSplits(Start(), b[..n], b[n..]);
    HaltedStays(Fold(Start(), b[..n]), b[n..]);
    if n == |b| { assert b[..n] == b; }
  }

  /** Up to the k-th byte of piece i. */
  lemma PrefixOf(pieces: seq<Bytes>, i: nat, k: nat)
    requires i < |pieces| && k <= |pieces[i]|
    ensures |Concat(pieces[..i])| + |pieces[i]| <= |Concat(pieces)|
    ensures Concat(pieces[..i]) + pieces[i][..k] == Concat(pieces)[..|Concat(pieces[..i])| + k]
    ensures Concat(pieces[..i + 1]) == Concat(pieces[..i]) + pieces[i]
  {
    var a, rest := Concat(pieces[..i]), Concat(pieces[i + 1..]);
    assert pieces == pieces[..i] + pieces[i..] && pieces[i..][1..] == pieces[i + 1..];
    ConcatSplit(pieces[..i], pieces[i..]);
    assert Concat(pieces) == a + (pieces[i] + rest);
    assert pieces[..i + 1] == pieces[..i] + [pieces[i]];
    ConcatSnoc(pieces[..i], pieces[i]);
  }

  lemma PieceRuns(cs: seq<Chunk>, last: Chunk, pieces: seq<Bytes>, i: nat)
    requires ValidBody(cs, last) && Concat(pieces) == EncodedBody(cs, last) && i < |pieces|
    ensures Fold(Fold(Start(), Concat(pieces[..i])), pieces[i]).errno == Ok
    ensures Fold(Fold(Start(), Concat(pieces[..i])), pieces[i]) == Fold(Start(), Concat(pieces[..i + 1]))
  {
    var n := PrefixEnd(pieces, i);
    FoldSplits(Start(), Concat(pieces[..i]), pieces[i]);
    BodyRuns(cs, last, n);
  }

  lemma PrefixEnd(pieces: seq<Bytes>, i: nat) returns (n: nat)
    requires i < |pieces|
    ensures n <= |Concat(pieces)| && Concat(pieces[..i]) + pieces[i] == Concat(pieces)[..n]
    ensures Concat(pieces[..i + 1]) == Concat(pieces[..i]) + pieces[i]
  {
    PrefixOf(pieces, i, |pieces[i]|);
    assert pieces[i][..|pieces[i]|] == pieces[i];
    n := |Concat(pieces[..i])| + |pieces[i]|;
  }

  lemma PieceTaken(cs: seq<Chunk>, last: Chunk, pieces: seq<Bytes>, i: nat, n: nat, q: Parser)
    requires ValidBody(cs, last) && Concat(pieces) == EncodedBody(cs, last) && i < |pieces|
    requires q.errno == Ok && Consumed(Fold(Start(), Concat(pieces[..i])), pieces[i], n, q)
    ensures n == |pieces[i]|
  {
    var a := Concat(pieces[..i]);
    PrefixOf(pieces, i, n);
    FoldSplits(Start(), a, pieces[i][..n]);
    BodyRuns(cs, last, |a| + n);
  }

  lemma SyncEnds(p: Parser, data: Bytes, i: nat, r: Parser)
    requires i <= |data| && (i == |data| || Halted(r)) && r.errno == Ok && Inv(r)
    requires Fold(p, data[..i]) == r
    ensures Executed(p, data, r) && Consumed(p, data, i, r)
  {
    if i == |data| { assert data[..i] == data; } else { SyncHalted(p, data, i, r); }
  }
}
