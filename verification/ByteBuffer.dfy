/** The growing byte buffer of the HTTP server: storage with a read and a write index, refining a byte queue. */
module ByteBuffer {
  import opened ByteStrings

  const DEFAULT_BUFFER_SIZE: nat := 1024

  /** Length of the first line with its '\n'; 0 when there is none. */
  function LineLength(b: Bytes): (n: nat)
    ensures n <= |b|
    ensures n == 0 <==> '\n' !in b
    ensures n > 0 ==> b[n - 1] == '\n' && '\n' !in b[..n - 1]
  {
    if b == [] then 0
    else if b[0] == '\n' then 1
    else
      var n := LineLength(b[1..]);
      assert b == [b[0]] + b[1..];
      assert n > 0 ==> b[..n] == [b[0]] + b[1..][..n - 1];
      if n == 0 then 0 else n + 1
  }

  /** b is a, doubled any number of times. */
  ghost predicate Doubled(a: nat, b: nat) { b == a || (b > a && b % 2 == 0 && Doubled(a, b / 2)) }

  lemma DoubleAgain(a: nat, b: nat)
    requires 0 < b && a <= b && Doubled(a, b)
    ensures Doubled(a, b * 2)
  {
    assert b * 2 / 2 == b && b * 2 % 2 == 0;
  }

  lemma Spliced(a: array<Byte>, i: nat, j: nat, k: nat)
    requires i <= j <= k <= a.Length
    ensures a[i..k] == a[i..j] + a[j..k]
  {
  }

  class Buffer {
    var storage: array<Byte>
    var readerIdx: nat
    var writerIdx: nat

    ghost predicate Valid()
      reads this
    {
      readerIdx <= writerIdx <= storage.Length && storage.Length >= DEFAULT_BUFFER_SIZE
    }

    /** The readable bytes. */
    function Contents(): Bytes
      requires Valid()
      reads this, storage
    {
      storage[readerIdx..writerIdx]
    }

    constructor ()
      ensures Valid() && fresh(storage) && Contents() == []
    {
      storage := new Byte[DEFAULT_BUFFER_SIZE];
      readerIdx, writerIdx := 0, 0;
    }

    function ReadableSize(): (n: nat)
      requires Valid()
      reads this, storage
      ensures n == |Contents()|
    {
      writerIdx - readerIdx
    }

    method MoveReadOffset(len: nat)
      requires Valid() && len <= |Contents()|
      modifies `readerIdx
      ensures Valid() && Contents() == old(Contents())[len..]
    {
      readerIdx := readerIdx + len;
    }

    method ReadAsString(len: nat) returns (str: Bytes)
      requires Valid() && len <= |Contents()|
      modifies `readerIdx
      ensures Valid() && str == old(Contents())[..len] && Contents() == old(Contents())[len..]
    {
      str := storage[readerIdx..readerIdx + len];
      MoveReadOffset(len);
    }

    method Clear()
      requires Valid()
      modifies `readerIdx, `writerIdx
      ensures Valid() && Contents() == []
    {
      readerIdx, writerIdx := 0, 0;
    }

    /** The smallest doubling of the current size that holds need bytes. */
    method GrownSize(need: nat) returns (size: nat)
      requires Valid()
      ensures size >= need && size >= storage.Length && Doubled(storage.Length, size)
      ensures size == storage.Length || size < 2 * need
    {
      size := storage.Length;
      while size < need
        invariant size >= storage.Length && Doubled(storage.Length, size)
        invariant size == storage.Length || size < 2 * need
        decreases need - size
      {
        DoubleAgain(storage.Length, size);
        size := size * 2;
      }
    }

    /** Makes room at the tail: in place when it is there, by moving the readable bytes to the front when that is
        enough, by growing the storage otherwise.  The readable bytes stay the same. */
    method EnsureWriteSpace(len: nat)
      requires Valid()
      modifies this, storage
      ensures Valid() && (storage == old(storage) || fresh(storage))
      ensures Contents() == old(Contents()) && len <= storage.Length - writerIdx
      ensures old(|Contents()|) + len <= old(storage.Length) ==> storage == old(storage)
      ensures storage.Length == old(storage.Length) || storage.Length < 2 * (old(writerIdx) + len)
    {
      if len <= storage.Length - writerIdx { return; }
      if len <= storage.Length - writerIdx + readerIdx {
        var readable := writerIdx - readerIdx;
        forall i | 0 <= i < readable { storage[i] := storage[readerIdx + i]; }
        readerIdx, writerIdx := 0, readable;
        assert storage[..readable] == old(Contents());
      } else {
        var size := GrownSize(writerIdx + len);
        var grown := new Byte[size];
        forall i | 0 <= i < storage.Length { grown[i] := storage[i]; }
        assert grown[readerIdx..writerIdx] == storage[readerIdx..writerIdx];
        storage := grown;
      }
    }

    /** std::copy to the place of byte j; the bytes from i on that come before stay. */
    static method Copy(data: Bytes, a: array<Byte>, i: nat, j: nat)
      requires i <= j && j + |data| <= a.Length
      modifies a
      ensures a[i..j] == old(a[i..j]) && a[j..j + |data|] == data
    {
      forall k | j <= k < j + |data| { a[k] := data[k - j]; }
    }

    method Write(data: Bytes)
      requires Valid()
      modifies this, storage
      ensures Valid() && (storage == old(storage) || fresh(storage))
      ensures Contents() == old(Contents()) + data
    {
      if data == [] { return; }
      EnsureWriteSpace(|data|);
      Append(data);
    }

    /** Into the room at the tail. */
    method Append(data: Bytes)
      requires Valid() && |data| <= storage.Length - writerIdx
      modifies `writerIdx, storage
      ensures Valid() && Contents() == old(Contents()) + data
    {
      Copy(data, storage, readerIdx, writerIdx);
      Spliced(storage, readerIdx, writerIdx, writerIdx + |data|);
      writerIdx := writerIdx + |data|;
    }

    /** memchr for '\n', then the line with its end; empty when no line is complete. */
    method GetLine() returns (line: Bytes)
      requires Valid()
      modifies `readerIdx
      ensures Valid()
      ensures var n := LineLength(old(Contents())); line == old(Contents())[..n] && Contents() == old(Contents())[n..]
    {
      var n := LineLength(Contents());
      if n == 0 { return []; }
      line := ReadAsString(n);
    }
  }
}
