/** Byte strings, and what every module needs to know about sequences. */
module ByteStrings {

  type Byte = c: char | c <= '\U{00FF}' witness 'a'

  type Bytes = seq<Byte>

  datatype Option<T> = None | Some(value: T)

  predicate IsDigit(c: Byte) { '0' <= c <= '9' }

  predicate IsLower(c: Byte) { 'a' <= c <= 'z' }

  predicate IsUpper(c: Byte) { 'A' <= c <= 'Z' }

  function Code(c: Byte): (n: nat)
    ensures n < 256
  {
    c as int
  }

  function FromCode(n: nat): (c: Byte)
    requires n < 256
    ensures Code(c) == n
  {
    n as char
  }

  function Concat(pieces: seq<Bytes>): Bytes {
    if pieces == [] then [] else pieces[0] + Concat(pieces[1..])
  }

  lemma Regroup<T>(a: seq<T>, b: seq<T>, c: seq<T>)
    ensures (a + b) + c == a + (b + c)
  {
  }

  lemma {:induction false} ConcatSnoc(bs: seq<Bytes>, b: Bytes)
    ensures Concat(bs + [b]) == Concat(bs) + b
  {
    if bs == [] {
      assert bs + [b] == [b];
    } else {
      assert (bs + [b])[1..] == bs[1..] + [b];
      ConcatSnoc(bs[1..], b);
    }
  }

  lemma {:induction false} ConcatSplit(a: seq<Bytes>, b: seq<Bytes>)
    ensures Concat(a + b) == Concat(a) + Concat(b)
    decreases |a|
  {
    if a == [] {
      assert a + b == b;
    } else {
      assert (a + b)[1..] == a[1..] + b;
      ConcatSplit(a[1..], b);
    }
  }
}
