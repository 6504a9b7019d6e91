/** The string utilities of the HTTP server: percent coding and splitting. */
module UrlCodec {
  import opened ByteStrings

  // ---------------------------------------------------------------- percent coding

  predicate Unreserved(c: Byte) {
    c == '.' || c == '-' || c == '_' || c == '~' || IsLower(c) || IsUpper(c) || IsDigit(c)
  }

  /** A digit of the %02X conversion. */
  function UpperHex(n: nat): (c: Byte)
    requires n < 16
    ensures IsDigit(c) || 'A' <= c <= 'F'
  {
    if n < 10 then FromCode(Code('0') + n) else FromCode(Code('A') + n - 10)
  }

  function EncodeByte(c: Byte, spaceToPlus: bool): Bytes {
    if Unreserved(c) then [c]
    else if c == ' ' && spaceToPlus then ['+']
    else ['%', UpperHex(Code(c) / 16), UpperHex(Code(c) % 16)]
  }

  function Encode(url: Bytes, spaceToPlus: bool): Bytes {
    if url == [] then [] else EncodeByte(url[0], spaceToPlus) + Encode(url[1..], spaceToPlus)
  }

  /** Which bytes are written as themselves, which as a plus sign, and which as three bytes. */
  lemma EncodedAlone(c: Byte, plus: bool)
    ensures Encode([c], plus) == [c] <==>
      'a' <= c <= 'z' || 'A' <= c <= 'Z' || '0' <= c <= '9' || c == '.' || c == '-' || c == '_' || c == '~'
    ensures Encode([c], plus) == ['+'] <==> c == ' ' && plus
    ensures |Encode([c], plus)| == if Encode([c], plus) == [c] || (c == ' ' && plus) then 1 else 3
  {
    assert [c][1..] == [] && Encode([c], plus) == EncodeByte(c, plus) + [] == EncodeByte(c, plus);
  }

  /** HexToDecimal: every letter is accepted, not only those up to F. */
  function HexToDecimal(c: Byte): int {
    if IsDigit(c) then Code(c) - Code('0')
    else if IsLower(c) then Code(c) - Code('a') + 10
    else if IsUpper(c) then Code(c) - Code('A') + 10
    else -1
  }

  predicate Escaped(url: Bytes) {
    |url| > 2 && url[0] == '%' && HexToDecimal(url[1]) >= 0 && HexToDecimal(url[2]) >= 0
  }

  /** The byte of an escape: shifted, added and truncated to eight bits. */
  function Unescaped(url: Bytes): Byte
    requires Escaped(url)
  {
    FromCode((HexToDecimal(url[1]) * 16 + HexToDecimal(url[2])) % 256)
  }

  /** The next decoded byte and how many bytes it was written with. */
  function DecodeByte(url: Bytes, plusToSpace: bool): (r: (Byte, nat))
    requires url != []
    ensures 1 <= r.1 <= |url|
  {
    if url[0] == '+' && plusToSpace then (' ', 1)
    else if Escaped(url) then (Unescaped(url), 3)
    else (url[0], 1)
  }

  function Decode(url: Bytes, plusToSpace: bool): Bytes {
    if url == [] then []
    else var (c, n) := DecodeByte(url, plusToSpace); [c] + Decode(url[n..], plusToSpace)
  }

  method UrlEncode(url: Bytes, spaceToPlus: bool) returns (res: Bytes)
    ensures res == Encode(url, spaceToPlus)
  {
    res := [];
    for i := 0 to |url|
      invariant res + Encode(url[i..], spaceToPlus) == Encode(url, spaceToPlus)
    {
      var c := url[i];
      EncodeNext(url, i, res, spaceToPlus);
      if c == '.' || c == '-' || c == '_' || c == '~' || IsLower(c) || IsUpper(c) || IsDigit(c) {
        res := res + [c];
      } else if c == ' ' && spaceToPlus {
        res := res + ['+'];
      } else {
        res := res + ['%', UpperHex(Code(c) / 16), UpperHex(Code(c) % 16)];
      }
    }
  }

  lemma EncodeNext(url: Bytes, i: nat, res: Bytes, plus: bool)
    requires i < |url| && res + Encode(url[i..], plus) == Encode(url, plus)
    ensures (res + EncodeByte(url[i], plus)) + Encode(url[i + 1..], plus) == Encode(url, plus)
  {
    EncodeFirst(url, i, plus);
    Regroup(res, EncodeByte(url[i], plus), Encode(url[i + 1..], plus));
  }

  lemma EncodeFirst(url: Bytes, i: nat, plus: bool)
    requires i < |url|
    ensures Encode(url[i..], plus) == EncodeByte(url[i], plus) + Encode(url[i + 1..], plus)
  {
    assert url[i..][1..] == url[i + 1..];
  }

  /** After i bytes have been decoded to res, the rest is still to come. */
  ghost predicate DecodedTo(url: Bytes, i: nat, res: Bytes, plusToSpace: bool) {
    i <= |url| && res + Decode(url[i..], plusToSpace) == Decode(url, plusToSpace)
  }

  method UrlDecode(url: Bytes, plusToSpace: bool) returns (res: Bytes)
    ensures res == Decode(url, plusToSpace)
  {
    res := [];
    var i: nat := 0;
    while i < |url|
      invariant DecodedTo(url, i, res, plusToSpace)
    {
      DecodeNext(url, i, res, plusToSpace);
      var c, n := DecodeAt(url, i, plusToSpace);
      res := res + [c];
      i := i + n;
    }
  }

  /** The body of the loop: the byte at i, and how far to go on. */
  method DecodeAt(url: Bytes, i: nat, plusToSpace: bool) returns (c: Byte, n: nat)
    requires i < |url|
    ensures (c, n) == DecodeByte(url[i..], plusToSpace)
  {
    c, n := url[i], 1;
    if url[i] == '+' && plusToSpace {
      c := ' ';
    } else if url[i] == '%' && i + 2 < |url| {
      var ch1 := HexToDecimal(url[i + 1]);
      var ch2 := HexToDecimal(url[i + 2]);
      if ch1 >= 0 && ch2 >= 0 {
        c, n := FromCode((ch1 * 16 + ch2) % 256), 3;
      }
    }
  }

  lemma DecodeNext(url: Bytes, i: nat, res: Bytes, plus: bool)
    requires i < |url| && DecodedTo(url, i, res, plus)
    ensures var (c, n) := DecodeByte(url[i..], plus); DecodedTo(url, i + n, res + [c], plus)
  {
    var (c, n) := DecodeByte(url[i..], plus);
    assert url[i..][n..] == url[i + n..];
    assert (res + [c]) + Decode(url[i + n..], plus) == res + ([c] + Decode(url[i + n..], plus));
  }

  lemma EscapeInverse(c: Byte)
    ensures HexToDecimal(UpperHex(Code(c) / 16)) * 16 + HexToDecimal(UpperHex(Code(c) % 16)) == Code(c)
  {
    HexInverse(Code(c) / 16);
    HexInverse(Code(c) % 16);
  }

  lemma HexInverse(n: nat)
    requires n < 16
    ensures HexToDecimal(UpperHex(n)) == n
  {
  }

  /** What one byte was encoded to decodes to it, whatever follows. */
  lemma DecodeEncoded(c: Byte, rest: Bytes, plus: bool)
    ensures DecodeByte(EncodeByte(c, plus) + rest, plus) == (c, |EncodeByte(c, plus)|)
    ensures (EncodeByte(c, plus) + rest)[|EncodeByte(c, plus)|..] == rest
  {
    EscapeInverse(c);
  }

  /** Decoding undoes encoding, for every byte string and both ways of writing a space. */
  lemma {:induction false} RoundTrip(url: Bytes, plus: bool)
    ensures Decode(Encode(url, plus), plus) == url
  {
    if url != [] {
      RoundTrip(url[1..], plus);
      DecodeEncoded(url[0], Encode(url[1..], plus), plus);
    }
  }

  // ---------------------------------------------------------------- hexadecimal digits only

  predicate AnyHexDigit(c: Byte) { IsDigit(c) || 'a' <= c <= 'f' || 'A' <= c <= 'F' }

  function HexValue(c: Byte): (v: nat)
    requires AnyHexDigit(c)
    ensures v < 16
  {
    if IsDigit(c) then Code(c) - Code('0') else if c >= 'a' then Code(c) - Code('a') + 10 else Code(c) - Code('A') + 10
  }

  predicate HexEscaped(url: Bytes) { |url| > 2 && url[0] == '%' && AnyHexDigit(url[1]) && AnyHexDigit(url[2]) }

  /** Percent decoding as section 2.1 of RFC 3986 has it: two hexadecimal digits of either case, anything else as it
      stands. */
  function StrictDecode(url: Bytes, plusToSpace: bool): Bytes {
    if url == [] then []
    else if url[0] == '+' && plusToSpace then [' '] + StrictDecode(url[1..], plusToSpace)
    else if HexEscaped(url) then
      [FromCode(HexValue(url[1]) * 16 + HexValue(url[2]))] + StrictDecode(url[3..], plusToSpace)
    else [url[0]] + StrictDecode(url[1..], plusToSpace)
  }

  predicate Alphanumeric(c: Byte) { IsDigit(c) || IsLower(c) || IsUpper(c) }

  /** At i a '%' is followed by two letters or digits that are not both hexadecimal digits. */
  predicate Misread(url: Bytes, i: nat) {
    && i + 2 < |url| && url[i] == '%' && Alphanumeric(url[i + 1]) && Alphanumeric(url[i + 2])
    && !(AnyHexDigit(url[i + 1]) && AnyHexDigit(url[i + 2]))
  }

  predicate Unambiguous(url: Bytes) { forall i: nat :: i < |url| ==> !Misread(url, i) }

  lemma MisreadTail(url: Bytes, n: nat, i: nat)
    requires n <= |url|
    ensures Misread(url[n..], i) <==> Misread(url, n + i)
  {
  }

  /** Looking from the next byte to be decoded on is enough: inside an escape there is no '%'. */
  lemma UnambiguousTail(url: Bytes, n: nat)
    requires n <= |url| && forall i: nat :: 0 < i < n ==> url[i] != '%'
    ensures n > 0 ==> (Unambiguous(url) <==> !Misread(url, 0) && Unambiguous(url[n..]))
  {
    forall i: nat ensures Misread(url[n..], i) <==> Misread(url, n + i) { MisreadTail(url, n, i); }
    if n > 0 && !Misread(url, 0) && Unambiguous(url[n..]) {
      forall i: nat | i < |url| ensures !Misread(url, i) {
        if i >= n { assert !Misread(url[n..], i - n); }
      }
    }
    if n > 0 && Unambiguous(url) {
      forall i: nat | i < |url[n..]| ensures !Misread(url[n..], i) { assert !Misread(url, n + i); }
    }
  }

  /** A letter or digit stands for itself. */
  lemma StrictPlain(url: Bytes, plus: bool)
    requires url != [] && url[0] != '%' && url[0] != '+'
    ensures StrictDecode(url, plus) == [url[0]] + StrictDecode(url[1..], plus)
  {
  }

  /** Where the decoders disagree, the strict one puts out two bytes more. */
  lemma StrictMisread(url: Bytes, plus: bool)
    requires url != [] && Misread(url, 0)
    ensures DecodeByte(url, plus).1 == 3
    ensures |StrictDecode(url, plus)| == 3 + |StrictDecode(url[3..], plus)|
  {
    StrictPlain(url[1..], plus);
    StrictPlain(url[2..], plus);
    assert url[1..][1..] == url[2..] && url[2..][1..] == url[3..];
  }

  lemma HexValues(h: Byte, l: Byte)
    requires AnyHexDigit(h) && AnyHexDigit(l)
    ensures HexToDecimal(h) == HexValue(h) && HexToDecimal(l) == HexValue(l) && HexValue(h) * 16 + HexValue(l) < 256
  {
  }

  lemma StrictAgrees(url: Bytes, plus: bool)
    requires url != [] && !Misread(url, 0)
    ensures var (c, n) := DecodeByte(url, plus); StrictDecode(url, plus) == [c] + StrictDecode(url[n..], plus)
  {
    if HexEscaped(url) { HexValues(url[1], url[2]); }
  }

  lemma InsideEscape(url: Bytes, plus: bool)
    requires url != []
    ensures forall i: nat :: 0 < i < DecodeByte(url, plus).1 ==> url[i] != '%'
  {
  }

  lemma {:induction false} StrictIsLonger(url: Bytes, plus: bool)
    ensures |Decode(url, plus)| <= |StrictDecode(url, plus)|
  {
    if url != [] {
      if Misread(url, 0) { StrictMisread(url, plus); } else { StrictAgrees(url, plus); }
      StrictIsLonger(url[DecodeByte(url, plus).1..], plus);
    }
  }

  /** The decoder decodes as the standard has it exactly when no '%' is followed by two letters or digits that are not
      both hexadecimal digits. */
  lemma {:induction false} DecodesStrictlyIff(url: Bytes, plus: bool)
    ensures Decode(url, plus) == StrictDecode(url, plus) <==> Unambiguous(url)
  {
    if url != [] {
      var (c, n) := DecodeByte(url, plus);
      InsideEscape(url, plus);
      UnambiguousTail(url, n);
      DecodesStrictlyIff(url[n..], plus);
      if Misread(url, 0) {
        StrictMisread(url, plus);
        StrictIsLonger(url[n..], plus);
      } else {
        StrictAgrees(url, plus);
        SameHead(c, Decode(url[n..], plus), StrictDecode(url[n..], plus));
      }
    }
  }

  lemma SameHead(c: Byte, a: Bytes, b: Bytes)
    ensures [c] + a == [c] + b <==> a == b
  {
    assert ([c] + a)[1..] == a && ([c] + b)[1..] == b;
  }

  /** An escape of two letters that are not hexadecimal digits is decoded all the same. */
  lemma AnyLetterDecodes()
    ensures Decode(['%', 'z', 'z'], false) == ['S'] != StrictDecode(['%', 'z', 'z'], false)
  {
    var s: Bytes := ['%', 'z', 'z'];
    assert s[3..] == [];
    assert Escaped(s) && DecodeByte(s, false) == ('S', 3);
    assert Misread(s, 0);
    DecodesStrictlyIff(s, false);
  }

  /** s is made of unreserved characters, percent triplets of upper-case hexadecimal digits, and '+' where allowed. */
  predicate PercentCoded(s: Bytes, plus: bool) {
    s == [] ||
    (if s[0] == '%' then
       |s| > 2 && HexDigit(s[1]) && HexDigit(s[2]) && PercentCoded(s[3..], plus)
     else
       (Unreserved(s[0]) || (plus && s[0] == '+')) && PercentCoded(s[1..], plus))
  }

  predicate HexDigit(c: Byte) { IsDigit(c) || 'A' <= c <= 'F' }

  lemma {:induction false} EncodeAlphabet(url: Bytes, plus: bool)
    ensures PercentCoded(Encode(url, plus), plus)
  {
    if url != [] {
      EncodeAlphabet(url[1..], plus);
      var c, rest := url[0], Encode(url[1..], plus);
      var e := EncodeByte(c, plus) + rest;
      if Unreserved(c) || (c == ' ' && plus) {
        assert e[1..] == rest;
      } else {
        assert e[3..] == rest;
      }
    }
  }

  /** Encoding a percent-coded string again after decoding it gives it back: the encoder's image is canonical
      exactly when no triplet stands for a character that has a shorter form. */
  predicate Canonical(s: Bytes, plus: bool)
    requires PercentCoded(s, plus)
  {
    s == [] ||
    (if s[0] == '%' then |EncodeByte(Unescaped(s), plus)| == 3 && Canonical(s[3..], plus) else Canonical(s[1..], plus))
  }

  lemma {:induction false} EncodeInvertsDecode(s: Bytes, plus: bool)
    requires PercentCoded(s, plus)
    ensures Encode(Decode(s, plus), plus) == s <==> Canonical(s, plus)
  {
    if s != [] {
      var (c, n) := DecodeByte(s, plus);
      EncodeInvertsDecode(s[n..], plus);
      RecodeStep(s, plus);
      FirstEncoded(s, plus);
      SplitEqual(EncodeByte(c, plus), Encode(Decode(s[n..], plus), plus), s);
    }
  }

  lemma RecodeStep(s: Bytes, plus: bool)
    requires s != []
    ensures var (c, n) := DecodeByte(s, plus);
      Encode(Decode(s, plus), plus) == EncodeByte(c, plus) + Encode(Decode(s[n..], plus), plus)
  {
    var (c, n) := DecodeByte(s, plus);
    assert ([c] + Decode(s[n..], plus))[1..] == Decode(s[n..], plus);
  }

  lemma SplitEqual(a: Bytes, b: Bytes, s: Bytes)
    ensures a + b == s <==> |a| <= |s| && a == s[..|a|] && b == s[|a|..]
  {
    if a + b == s {
      assert (a + b)[..|a|] == a && (a + b)[|a|..] == b;
    } else if |a| <= |s| {
      assert s == s[..|a|] + s[|a|..];
    }
  }

  /** The decoded first byte is written the same way again, unless it stood as an escape and has a shorter form. */
  lemma FirstEncoded(s: Bytes, plus: bool)
    requires s != [] && PercentCoded(s, plus)
    ensures var (c, n) := DecodeByte(s, plus);
      if |EncodeByte(c, plus)| == n then EncodeByte(c, plus) == s[..n] else s[0] == '%' && EncodeByte(c, plus)[0] != '%'
  {
    if s[0] == '%' { EscapeEncoded(s, plus); } else { assert EncodeByte(DecodeByte(s, plus).0, plus) == s[..1]; }
  }

  lemma EscapeEncoded(s: Bytes, plus: bool)
    requires |s| > 2 && s[0] == '%' && HexDigit(s[1]) && HexDigit(s[2])
    ensures DecodeByte(s, plus).1 == 3
    ensures var e := EncodeByte(DecodeByte(s, plus).0, plus); if |e| == 3 then e == s[..3] else e[0] != '%'
  {
    HexUnique(s[1], s[2]);
    assert Code(Unescaped(s)) == HexToDecimal(s[1]) * 16 + HexToDecimal(s[2]);
    assert s[..3] == ['%', s[1], s[2]];
  }

  lemma HexUnique(h: Byte, l: Byte)
    requires HexDigit(h) && HexDigit(l)
    ensures var n := HexToDecimal(h) * 16 + HexToDecimal(l);
      0 <= n < 256 && UpperHex(n / 16) == h && UpperHex(n % 16) == l
  {
    var a, b := HexToDecimal(h), HexToDecimal(l);
    assert (a * 16 + b) / 16 == a && (a * 16 + b) % 16 == b;
  }

  // ---------------------------------------------------------------- splitting

  /** sep stands in src at k. */
  predicate At(src: Bytes, sep: Bytes, k: nat) { k + |sep| <= |src| && src[k..k + |sep|] == sep }

  /** std::string::find; -1 for npos */
  function Find(src: Bytes, sep: Bytes, offset: nat): (pos: int)
    requires offset <= |src|
    ensures pos == -1 || (offset <= pos && pos + |sep| <= |src|)
    decreases |src| - offset
  {
    if At(src, sep, offset) then offset
    else if offset == |src| then -1
    else Find(src, sep, offset + 1)
  }

  /** find gives the first place from offset on where sep stands. */
  lemma {:induction false} FindFirst(src: Bytes, sep: Bytes, offset: nat)
    requires offset <= |src|
    ensures var pos := Find(src, sep, offset);
      && (pos == -1 || At(src, sep, pos))
      && forall k: nat :: offset <= k && (pos == -1 || k < pos) ==> !At(src, sep, k)
    decreases |src| - offset
  {
    if !At(src, sep, offset) && offset < |src| { FindFirst(src, sep, offset + 1); }
  }

  function SplitFrom(src: Bytes, sep: Bytes, offset: nat): seq<Bytes>
    requires sep != [] && offset <= |src|
    decreases |src| - offset
  {
    if offset == |src| then []
    else
      var pos := Find(src, sep, offset);
      if pos == -1 then [src[offset..]]
      else if pos == offset then SplitFrom(src, sep, pos + |sep|)
      else [src[offset..pos]] + SplitFrom(src, sep, pos + |sep|)
  }

  function Pieces(src: Bytes, sep: Bytes): seq<Bytes> {
    if sep == [] then [] else SplitFrom(src, sep, 0)
  }

  method Split(src: Bytes, sep: Bytes) returns (pieces: seq<Bytes>)
    ensures pieces == Pieces(src, sep)
  {
    pieces := [];
    if sep == [] { return; }
    var offset: nat := 0;
    ghost var all := SplitFrom(src, sep, 0);
    ghost var rest := all;
    while offset < |src|
      invariant offset <= |src| && rest == SplitFrom(src, sep, offset) && Extends(pieces, rest, all)
    {
      var pos := Find(src, sep, offset);
      if pos == -1 {
        pieces := pieces + [src[offset..]];
        return;
      }
      ghost var next := SplitFrom(src, sep, pos + |sep|);
      if pos != offset {
        ExtendsNext(pieces, src[offset..pos], next, all);
        pieces := pieces + [src[offset..pos]];
      }
      offset, rest := pos + |sep|, next;
    }
  }

  /** With these pieces found, the rest is still to come. */
  ghost predicate Extends(pieces: seq<Bytes>, rest: seq<Bytes>, all: seq<Bytes>) { pieces + rest == all }

  lemma ExtendsNext(pieces: seq<Bytes>, piece: Bytes, rest: seq<Bytes>, all: seq<Bytes>)
    requires Extends(pieces, [piece] + rest, all)
    ensures Extends(pieces + [piece], rest, all)
  {
    Regroup(pieces, [piece], rest);
  }

  function Join(pieces: seq<Bytes>, sep: Byte): Bytes {
    if pieces == [] then [] else if |pieces| == 1 then pieces[0] else pieces[0] + [sep] + Join(pieces[1..], sep)
  }

  ghost predicate Plain(piece: Bytes, sep: Byte) { piece != [] && sep !in piece }

  lemma AtByte(src: Bytes, sep: Byte, k: nat)
    ensures At(src, [sep], k) <==> k < |src| && src[k] == sep
  {
    if k < |src| { assert src[k..k + 1] == [src[k]]; }
  }

  /** Where a piece that does not hold the separator ends, find stops. */
  lemma FindEnd(src: Bytes, sep: Byte, offset: nat, end: nat)
    requires offset <= end <= |src| && (end == |src| || src[end] == sep)
    requires forall k :: offset <= k < end ==> src[k] != sep
    ensures Find(src, [sep], offset) == if end == |src| then -1 else end
  {
    var pos := Find(src, [sep], offset);
    FindFirst(src, [sep], offset);
    AtByte(src, sep, end);
    if pos != -1 { AtByte(src, sep, pos); }
  }

  /** Splitting at a one-byte separator undoes joining of non-empty pieces that do not hold it. */
  lemma {:induction false} SplitUndoesJoin(pieces: seq<Bytes>, sep: Byte, before: Bytes)
    requires forall p :: p in pieces ==> Plain(p, sep)
    ensures SplitFrom(before + Join(pieces, sep), [sep], |before|) == pieces
    decreases |pieces|
  {
    if pieces != [] {
      assert pieces == [pieces[0]] + pieces[1..];
      assert Plain(pieces[0], sep);
      if |pieces| > 1 {
        var before' := before + pieces[0] + [sep];
        SplitUndoesJoin(pieces[1..], sep, before');
        SplitFirst(before, pieces[0], sep, Join(pieces[1..], sep));
        JoinNext(before, pieces, sep);
      } else {
        SplitLast(before, pieces[0], sep);
      }
    }
  }

  lemma JoinNext(before: Bytes, pieces: seq<Bytes>, sep: Byte)
    requires |pieces| > 1
    ensures before + Join(pieces, sep) == before + pieces[0] + [sep] + Join(pieces[1..], sep)
  {
  }

  lemma SplitFirst(before: Bytes, piece: Bytes, sep: Byte, rest: Bytes)
    requires Plain(piece, sep)
    ensures var before' := before + piece + [sep];
      SplitFrom(before' + rest, [sep], |before|) == [piece] + SplitFrom(before' + rest, [sep], |before'|)
  {
    var src, end := before + piece + [sep] + rest, |before| + |piece|;
    forall k | |before| <= k < end ensures src[k] != sep { assert src[k] == piece[k - |before|]; }
    FindEnd(src, sep, |before|, end);
    assert src[|before|..end] == piece;
  }

  lemma SplitLast(before: Bytes, piece: Bytes, sep: Byte)
    requires Plain(piece, sep)
    ensures SplitFrom(before + piece, [sep], |before|) == [piece]
  {
    var src := before + piece;
    forall k | |before| <= k < |src| ensures src[k] != sep { assert src[k] == piece[k - |before|]; }
    FindEnd(src, sep, |before|, |src|);
    assert src[|before|..] == piece;
  }

  // What comes before the offset does not matter, and a separator ends a piece.

  lemma {:induction false} FindShift(before: Bytes, src: Bytes, sep: Byte, offset: nat)
    requires offset <= |src|
    ensures Find(before + src, [sep], |before| + offset) ==
      var pos := Find(src, [sep], offset); if pos == -1 then -1 else |before| + pos
    decreases |src| - offset
  {
    AtByte(src, sep, offset);
    AtByte(before + src, sep, |before| + offset);
    if offset < |src| {
      assert (before + src)[|before| + offset] == src[offset];
      if src[offset] != sep { FindShift(before, src, sep, offset + 1); }
    }
  }

  lemma {:induction false} SplitShift(before: Bytes, src: Bytes, sep: Byte, offset: nat)
    requires offset <= |src|
    ensures SplitFrom(before + src, [sep], |before| + offset) == SplitFrom(src, [sep], offset)
    decreases |src| - offset
  {
    if offset < |src| {
      var pos := Find(src, [sep], offset);
      FindShift(before, src, sep, offset);
      if pos == -1 {
        assert (before + src)[|before| + offset..] == src[offset..];
      } else {
        assert (before + src)[|before| + offset..|before| + pos] == src[offset..pos];
        SplitShift(before, src, sep, pos + 1);
      }
    }
  }

  /** Up to the separator at its end, a text splits as it does by itself. */
  lemma {:induction false} SplitBefore(a: Bytes, sep: Byte, b: Bytes, src: Bytes, offset: nat)
    requires offset <= |a| && src == a + [sep] + b
    ensures SplitFrom(src, [sep], offset) == SplitFrom(a, [sep], offset) + SplitFrom(src, [sep], |a| + 1)
    decreases |a| - offset
  {
    var pos := Find(a, [sep], offset);
    if pos == -1 {
      BeforeLast(a, sep, b, src, offset);
    } else {
      SplitBefore(a, sep, b, src, pos + 1);
      BeforeInner(a, sep, b, src, offset, SplitFrom(src, [sep], |a| + 1));
    }
  }

  lemma BeforeLast(a: Bytes, sep: Byte, b: Bytes, src: Bytes, offset: nat)
    requires offset <= |a| && src == a + [sep] + b && Find(a, [sep], offset) == -1
    ensures SplitFrom(src, [sep], offset) == SplitFrom(a, [sep], offset) + SplitFrom(src, [sep], |a| + 1)
  {
    StopsBefore(a, sep, b, offset);
    SplitStep(src, sep, offset);
    LastPiece(a, sep, offset);
  }

  lemma BeforeInner(a: Bytes, sep: Byte, b: Bytes, src: Bytes, offset: nat, next: seq<Bytes>)
    requires offset <= |a| && src == a + [sep] + b && Find(a, [sep], offset) != -1
    requires var pos := Find(a, [sep], offset);
      SplitFrom(src, [sep], pos + 1) == SplitFrom(a, [sep], pos + 1) + next
    ensures SplitFrom(src, [sep], offset) == SplitFrom(a, [sep], offset) + next
  {
    var pos := Find(a, [sep], offset);
    StopsBefore(a, sep, b, offset);
    SplitStep(src, sep, offset);
    SplitStep(a, sep, offset);
    Regroup(Piece(a, offset, pos), SplitFrom(a, [sep], pos + 1), next);
  }

  /** What lies between two separators, if anything does. */
  function Piece(src: Bytes, i: nat, j: nat): seq<Bytes>
    requires i <= j <= |src|
  {
    if i == j then [] else [src[i..j]]
  }

  lemma SplitStep(src: Bytes, sep: Byte, offset: nat)
    requires offset <= |src| && Find(src, [sep], offset) != -1
    ensures var pos := Find(src, [sep], offset);
      SplitFrom(src, [sep], offset) == Piece(src, offset, pos) + SplitFrom(src, [sep], pos + 1)
  {
  }

  /** The next separator is the one in the text, or the one at its end. */
  lemma StopsBefore(a: Bytes, sep: Byte, b: Bytes, offset: nat)
    requires offset <= |a|
    ensures var pos := Find(a, [sep], offset);
      var end := if pos == -1 then |a| else pos;
      Find(a + [sep] + b, [sep], offset) == end && Piece(a + [sep] + b, offset, end) == Piece(a, offset, end)
  {
    var src := a + [sep] + b;
    var pos := Find(a, [sep], offset);
    FindFirst(a, [sep], offset);
    var end := if pos == -1 then |a| else pos;
    forall k | offset <= k < end ensures src[k] != sep {
      AtByte(a, sep, k);
      assert src[k] == a[k];
    }
    if pos != -1 { AtByte(a, sep, pos); }
    assert src[end] == sep;
    FindEnd(src, sep, offset, end);
    assert src[offset..end] == a[offset..end];
  }

  lemma LastPiece(a: Bytes, sep: Byte, offset: nat)
    requires offset <= |a| && Find(a, [sep], offset) == -1
    ensures SplitFrom(a, [sep], offset) == Piece(a, offset, |a|)
  {
    assert a[offset..|a|] == a[offset..];
  }

  /** The pieces of two texts with a separator between them are those of the first and then those of the second, so that
      leading, trailing and repeated separators give no piece. */
  lemma SplitConcat(a: Bytes, sep: Byte, b: Bytes)
    ensures Pieces(a + [sep] + b, [sep]) == Pieces(a, [sep]) + Pieces(b, [sep])
  {
    SplitBefore(a, sep, b, a + [sep] + b, 0);
    SplitShift(a + [sep], b, sep, 0);
  }

  /** A text without the separator is its own only piece, unless it is empty. */
  lemma SplitWhole(a: Bytes, sep: Byte)
    requires sep !in a
    ensures Pieces(a, [sep]) == if a == [] then [] else [a]
  {
    if a != [] {
      SplitLast([], a, sep);
      assert [] + a == a;
    }
  }

  /** Every piece is non-empty and free of the separator. */
  lemma {:induction false} PiecesPlain(src: Bytes, sep: Byte, offset: nat)
    requires offset <= |src|
    ensures forall p :: p in SplitFrom(src, [sep], offset) ==> Plain(p, sep)
    decreases |src| - offset
  {
    if offset < |src| {
      var pos := Find(src, [sep], offset);
      FindFirst(src, [sep], offset);
      var end := if pos == -1 then |src| else pos;
      forall k | offset <= k < end ensures src[k] != sep { AtByte(src, sep, k); }
      assert sep !in src[offset..end];
      if pos != -1 { PiecesPlain(src, sep, pos + 1); }
    }
  }
}
