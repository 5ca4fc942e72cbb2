/** The growable byte buffer of kernel/net/net_buffer.cc.

    The vector holds a prependable gap, the readable contents and the writable tail.
    Every method is proved against the queue of readable elements: appending adds at the
    back, taking removes from the front, growth and compaction change neither.  The
    element type is a parameter because STUN packets are bytes and HTTP text is chars. */
module NetBuffer {

  const CHEAP_PREPEND := 8
  const INITIAL_SIZE := 1508
  const EXTRA_BUFFER := 65536
  const MIN_WRITABLE := 1024

  /** What readv delivered: an error, or elements that fill the first iovec before the
      second. */
  datatype ReadResult<T> = ReadError | ReadBytes(data: seq<T>)

  /** The sequence after i elements have been copied down. */
  function Copied<T>(b: seq<T>, to: nat, from: nat, i: nat): (now: seq<T>)
    requires to <= from && from + i <= |b|
    ensures |now| == |b|
  {
    b[..to] + b[from..from + i] + b[to + i..]
  }

  lemma CopyStep<T>(b: seq<T>, to: nat, from: nat, i: nat)
    requires to <= from && from + i < |b|
    ensures Copied(b, to, from, i)[from + i] == b[from + i]
    ensures Copied(b, to, from, i)[to + i := b[from + i]] == Copied(b, to, from, i + 1)
  {
    assert b[from..from + i + 1] == b[from..from + i] + [b[from + i]];
    assert b[to + i..] == [b[to + i]] + b[to + i + 1..];
  }

  lemma CopiedContents<T>(b: seq<T>, to: nat, from: nat, n: nat)
    requires to <= from && from + n <= |b|
    ensures Copied(b, to, from, n)[to..to + n] == b[from..from + n]
  {
  }

  class Buffer<T(==)> {
    const zero: T
    var buffer: seq<T>
    var reader: nat
    var writer: nat

    ghost predicate Valid()
      reads this
    {
      CHEAP_PREPEND <= reader <= writer <= |buffer|
    }

    function Contents(): seq<T>
      requires Valid()
      reads this
    {
      buffer[reader..writer]
    }

    function Writable(): nat
      requires Valid()
      reads this
    {
      |buffer| - writer
    }

    /** True of every buffer that starts at the default size and is filled only through
        AddReadableLength: reads always have room. */
    ghost predicate Roomy()
      reads this
    {
      Valid() && |buffer| >= CHEAP_PREPEND + INITIAL_SIZE && Writable() >= MIN_WRITABLE
    }

    constructor (zero: T, initialSize: nat)
      ensures Valid() && Contents() == [] && Writable() == initialSize
      ensures initialSize == INITIAL_SIZE ==> Roomy()
      ensures this.zero == zero
    {
      this.zero := zero;
      buffer := seq(CHEAP_PREPEND + initialSize, _ => zero);
      reader := CHEAP_PREPEND;
      writer := CHEAP_PREPEND;
    }

    /** std::copy to the front.  Source and target may overlap; going upwards, no element is
        overwritten before it has been copied. */
    method MoveDown()
      requires Valid()
      modifies `buffer
      ensures buffer == Copied(old(buffer), CHEAP_PREPEND, reader, writer - reader)
      ensures buffer[CHEAP_PREPEND..CHEAP_PREPEND + writer - reader] == old(Contents())
    {
      assert Copied(buffer, CHEAP_PREPEND, reader, 0) == buffer;
      CopiedContents(buffer, CHEAP_PREPEND, reader, writer - reader);
      hide Copied;
      for i := 0 to writer - reader
        invariant buffer == Copied(old(buffer), CHEAP_PREPEND, reader, i)
      {
        CopyStep(old(buffer), CHEAP_PREPEND, reader, i);
        buffer := buffer[CHEAP_PREPEND + i := buffer[reader + i]];
      }
    }

    method MakeSpace(len: nat)
      requires Valid() && Writable() < len
      modifies this
      ensures Valid() && Contents() == old(Contents())
      ensures Writable() >= len
      ensures |buffer| >= old(|buffer|)
    {
      if Writable() + reader < len + CHEAP_PREPEND {
        buffer := buffer + seq(writer + len - |buffer|, _ => zero);
      } else {
        assert CHEAP_PREPEND < reader;
        var readable := writer - reader;
        MoveDown();
        reader := CHEAP_PREPEND;
        writer := reader + readable;
      }
    }

    method EnsureWritableBytes(len: nat)
      requires Valid()
      modifies this
      ensures Valid() && Contents() == old(Contents())
      ensures Writable() >= len && |buffer| >= old(|buffer|)
      ensures old(Writable()) >= len ==> buffer == old(buffer) && reader == old(reader) && writer == old(writer)
    {
      if Writable() < len {
        MakeSpace(len);
      }
    }

    /** memcpy to the write index. */
    method Store(data: seq<T>)
      requires Valid() && |data| <= Writable()
      modifies this`buffer
      ensures Valid() && Contents() == old(Contents())
      ensures |buffer| == old(|buffer|) && buffer[writer..writer + |data|] == data
    {
      buffer := buffer[..writer] + data + buffer[writer + |data|..];
    }

    method Append(data: seq<T>)
      requires Valid()
      modifies this
      ensures Valid() && Contents() == old(Contents()) + data
      ensures |buffer| >= old(|buffer|)
    {
      if |data| > 0 {
        EnsureWritableBytes(|data|);
        Store(data);
        writer := writer + |data|;
      }
    }

    /** The caller has stored len elements behind the write index.  When they fitted, they
        become readable; whatever len was, the next read is guaranteed room. */
    method AddReadableLength(len: int)
      requires Valid()
      modifies this
      ensures Valid()
      ensures |Contents()| == old(|Contents()|) + if len <= 0 then 0 else len
      ensures old(Contents()) <= Contents()
      ensures 0 < len <= old(Writable()) ==> Contents() == old(Contents() + buffer[writer..writer + len])
      ensures len > 0 && old(|buffer|) >= 1024 ==> Writable() >= 1024
      ensures |buffer| >= old(|buffer|)
      ensures old(Roomy()) ==> Roomy()
    {
      if len <= 0 {
        return;
      }
      EnsureWritableBytes(len);
      writer := writer + len;
      KeepRoom();
    }

    /** A buffer with little room left doubles, or gains 65536 elements. */
    method KeepRoom()
      requires Valid()
      modifies this
      ensures Valid() && Contents() == old(Contents()) && |buffer| >= old(|buffer|)
      ensures old(|buffer|) >= 1024 ==> Writable() >= 1024
    {
      if Writable() < MIN_WRITABLE {
        if |buffer| < EXTRA_BUFFER {
          EnsureWritableBytes(|buffer|);
        } else {
          EnsureWritableBytes(EXTRA_BUFFER);
        }
      }
    }

    method ReadFd(result: ReadResult<T>) returns (rn: int)
      requires Valid()
      requires result.ReadBytes? ==>
                 |result.data| <= Writable() + if Writable() < EXTRA_BUFFER then EXTRA_BUFFER else 0
      modifies this
      ensures Valid()
      ensures result.ReadError? ==> rn < 0 && Contents() == old(Contents())
      ensures result.ReadBytes? ==> rn == |result.data| && Contents() == old(Contents()) + result.data
    {
      match result
      case ReadError => rn := -1;
      case ReadBytes(data) =>
        rn := |data|;
        var writable := Writable();
        if rn <= writable {
          Store(data);
          writer := writer + rn;
        } else {
          Store(data[..writable]);
          writer := |buffer|;
          assert Contents() == old(Contents()) + data[..writable];
          Append(data[writable..]);
          assert data[..writable] + data[writable..] == data;
        }
    }

    method TakeAll()
      requires Valid()
      modifies this`reader, this`writer
      ensures Valid() && Contents() == []
      ensures Writable() >= old(Writable()) && reader == CHEAP_PREPEND
    {
      reader := CHEAP_PREPEND;
      writer := CHEAP_PREPEND;
    }

    method Take(len: int)
      requires Valid() && len <= |Contents()|
      modifies this`reader, this`writer
      ensures Valid() && Contents() == if len <= 0 then old(Contents()) else old(Contents())[len..]
      ensures Writable() >= old(Writable())
      ensures old(Roomy()) ==> Roomy()
    {
      if len > 0 {
        if len < writer - reader {
          reader := reader + len;
        } else {
          TakeAll();
        }
      }
    }

    /** set_byteN on the readable contents. */
    method Patch(at: nat, data: seq<T>)
      requires Valid() && at + |data| <= |Contents()|
      modifies this`buffer
      ensures Valid() && |buffer| == old(|buffer|)
      ensures Contents() == old(Contents())[..at] + data + old(Contents())[at + |data|..]
    {
      buffer := buffer[..reader + at] + data + buffer[reader + at + |data|..];
    }
  }
}
