/**
 * An output stream that writes into a `java.nio.ByteBuffer` and replaces
 * the buffer by a larger one whenever a write would not fit.
 *
 * `ByteBuffer` is modelled by the part of it the stream uses: a fixed
 * backing array, a position and a limit, with `flip`, `put` and the
 * position and limit setters behaving as the JDK documents them.
 */
module ByteBufferOutputStreams {
  import opened Wrappers

  /** `(byte) b`: the low eight bits of an `int`. */
  function ByteOf(b: int): bv8 {
    (b % 256) as bv8
  }

  /**
   * The size `expandBuffer` allocates: the larger of the old limit grown by
   * a tenth and what the pending write needs.
   */
  function ExpandedSize(limit: int, position: int, required: int): (size: int)
    requires 0 <= position <= limit
    ensures size >= position + required
    ensures size >= limit
    ensures size == limit * 11 / 10 || size == position + required
  {
    var grown := limit * 11 / 10;
    if grown >= position + required then grown else position + required
  }

  /** A heap byte buffer: a backing array of fixed capacity, a position and a limit. */
  class ByteBuffer {
    const data: array<bv8>
    var position: int
    var limit: int

    ghost predicate Valid()
      reads this
    {
      0 <= position <= limit <= data.Length
    }

    function Capacity(): nat {
      data.Length
    }

    function Remaining(): int
      reads this
    {
      limit - position
    }

    /** The bytes between position and limit: what a `put` of this buffer hands over. */
    function Pending(): seq<bv8>
      requires Valid()
      reads this, data
    {
      data[position..limit]
    }

    /** `ByteBuffer.allocate`: zero-filled, position 0, limit at capacity. */
    constructor Allocate(capacity: nat)
      ensures Valid() && fresh(data)
      ensures data.Length == capacity && position == 0 && limit == capacity
      ensures forall i | 0 <= i < capacity :: data[i] == 0
    {
      data := new bv8[capacity](i => 0);
      position := 0;
      limit := capacity;
    }

    /** `flip`: the limit moves to the position and the position to 0. */
    method Flip()
      requires Valid()
      modifies this
      ensures Valid() && limit == old(position) && position == 0
    {
      limit := position;
      position := 0;
    }

    /** `position(p)`. */
    method SetPosition(p: int)
      requires Valid() && 0 <= p <= limit
      modifies this
      ensures Valid() && position == p && limit == old(limit)
    {
      position := p;
    }

    /** `limit(l)`: a position beyond the new limit is pulled back to it. */
    method SetLimit(l: int)
      requires Valid() && 0 <= l <= data.Length
      modifies this
      ensures Valid() && limit == l
      ensures position == if old(position) > l then l else old(position)
    {
      limit := l;
      if position > l {
        position := l;
      }
    }

    /** `put(byte)`: stores at the position and advances it. */
    method PutByte(b: bv8)
      requires Valid() && position < limit
      modifies this, data
      ensures Valid() && limit == old(limit) && position == old(position) + 1
      ensures data[..] == old(data[..])[old(position) := b]
    {
      data[position] := b;
      position := position + 1;
    }

    /** `put(byte[], off, len)` of the bytes `src`: copied in at the position, which advances past them. */
    method PutBytes(src: seq<bv8>)
      requires Valid() && |src| <= Remaining()
      modifies this, data
      ensures Valid() && limit == old(limit) && position == old(position) + |src|
      ensures data[..position] == old(data[..position]) + src
      ensures data[position..] == old(data[..])[position..]
    {
      var start := position;
      forall j | 0 <= j < |src| {
        data[start + j] := src[j];
      }
      position := position + |src|;
      assert data[..position] == old(data[..start]) + src by {
        forall j | 0 <= j < position
          ensures data[..position][j] == (old(data[..start]) + src)[j]
        {
          if j >= start {
            assert data[j] == src[j - start];
          }
        }
      }
    }

    /**
     * `put(ByteBuffer)`: the source's pending bytes are copied in and the
     * source's position moves to its limit. The bytes are read before any is
     * written, as `System.arraycopy` does when the two share an array.
     */
    method Put(source: ByteBuffer)
      requires Valid() && source.Valid() && source != this
      requires source.Remaining() <= Remaining()
      modifies this, data, source
      ensures Valid() && source.Valid()
      ensures limit == old(limit) && position == old(position) + old(source.Remaining())
      ensures data[..position] == old(data[..position]) + old(source.Pending())
      ensures data[position..] == old(data[..])[position..]
      ensures source.position == source.limit == old(source.limit)
    {
      var src := source.data[source.position..source.limit];
      PutBytes(src);
      source.position := source.limit;
    }
  }

  /**
   * `ByteBufferOutputStream`. A closed stream has dropped its buffer and its
   * initial capacity and position (`null` in Java, `None`/`null` here);
   * `closeable` is dropped too and may be set again.
   */
  class ByteBufferOutputStream {
    var buffer: ByteBuffer?
    var initialCapacity: Option<int>
    var initialPosition: Option<int>
    var closeable: Option<bool>

    ghost predicate Valid()
      reads this, buffer
    {
      && (buffer == null <==> initialCapacity.None?)
      && (buffer == null <==> initialPosition.None?)
      && (closeable.None? ==> buffer == null)
      && (buffer != null ==> buffer.Valid() && 0 <= initialPosition.value <= buffer.limit)
      && (initialCapacity.Some? ==> initialCapacity.value >= 0)
    }

    predicate Open()
      reads this
    {
      buffer != null
    }

    /** The bytes written so far: the buffer up to its position. */
    function Written(): seq<bv8>
      requires Valid() && Open()
      reads this, buffer, buffer.data
    {
      buffer.data[..buffer.position]
    }

    /** The fields no write changes. */
    twostate predicate SameSettings()
      reads this
    {
      && initialCapacity == old(initialCapacity)
      && initialPosition == old(initialPosition)
      && closeable == old(closeable)
    }

    /** `ByteBufferOutputStream(ByteBuffer, boolean)`: writes go on from the buffer's position. */
    constructor Wrap(buffer: ByteBuffer, closeable: bool)
      requires buffer.Valid()
      ensures Valid() && Open()
      ensures this.buffer == buffer && this.closeable == Some(closeable)
      ensures initialPosition == Some(buffer.position) && initialCapacity == Some(buffer.Capacity())
    {
      this.buffer := buffer;
      initialPosition := Some(buffer.position);
      initialCapacity := Some(buffer.Capacity());
      this.closeable := Some(closeable);
    }

    /** An empty buffer of the given capacity; `NewStream` is the Java constructor, which also takes a negative one. */
    constructor(initialCapacity: nat, closeable: bool)
      ensures Valid() && Open() && fresh(buffer)
      ensures buffer.position == 0 && buffer.limit == buffer.Capacity() == initialCapacity
      ensures Written() == []
      ensures this.initialCapacity == Some(initialCapacity) && initialPosition == Some(0)
      ensures this.closeable == Some(closeable)
    {
      var b := new ByteBuffer.Allocate(initialCapacity);
      buffer := b;
      initialPosition := Some(0);
      this.initialCapacity := Some(initialCapacity);
      this.closeable := Some(closeable);
    }

    method MarkAsCloseable(closeable: bool)
      requires Valid()
      modifies this
      ensures Valid() && this.closeable == Some(closeable)
      ensures buffer == old(buffer) && initialCapacity == old(initialCapacity)
      ensures initialPosition == old(initialPosition)
    {
      this.closeable := Some(closeable);
    }

    /** `position()`: how many bytes have been written. */
    function Position(): (r: int)
      requires Open()
      reads this, buffer
      ensures Valid() ==> r == |Written()| && r <= buffer.limit
    {
      buffer.position
    }

    /** `remaining()`: how many more bytes fit before the buffer must grow. */
    function Remaining(): (r: int)
      requires Open()
      reads this, buffer
      ensures Valid() ==> r >= 0 && Position() + r == Limit()
    {
      buffer.Remaining()
    }

    /** `limit()`: where writing stops; at least the position, at most the capacity. */
    function Limit(): (r: int)
      requires Open()
      reads this, buffer
      ensures Valid() ==> buffer.position <= r <= buffer.Capacity()
    {
      buffer.limit
    }

    /** `initialCapacity()`: the capacity of the buffer the stream was built with. */
    function InitialCapacity(): (r: int)
      requires Valid() && Open()
      reads this, buffer
      ensures r >= 0
    {
      initialCapacity.value
    }

    /**
     * `expandBuffer`: a buffer of `ExpandedSize` bytes takes over the
     * written bytes and the position. The old buffer gets its limit back and
     * its position set to the stream's initial position; its bytes are left
     * as they were.
     */
    method ExpandBuffer(required: int)
      requires Valid() && Open() && required > Remaining()
      modifies this, buffer
      ensures Valid() && Open() && SameSettings() && fresh(buffer) && fresh(buffer.data)
      ensures buffer.Capacity() == buffer.limit == ExpandedSize(old(buffer.limit), old(buffer.position), required)
      ensures buffer.position == old(buffer.position)
      ensures Written() == old(Written())
      ensures forall i | buffer.position <= i < buffer.limit :: buffer.data[i] == 0
      ensures old(buffer).limit == old(buffer.limit) && old(buffer).position == initialPosition.value
    {
      var expandSize := ExpandedSize(buffer.limit, buffer.position, required);
      var temp := new ByteBuffer.Allocate(expandSize);
      var limit := buffer.limit;
      buffer.Flip();
      temp.Put(buffer);
      buffer.SetLimit(limit);
      buffer.SetPosition(initialPosition.value);
      buffer := temp;
    }

    /**
     * `ensureRemaining(n)`: afterwards at least `n` bytes fit. When they
     * already did nothing changes; otherwise the buffer grows, keeping what
     * was written.
     */
    method EnsureRemaining(n: int)
      requires Valid() && Open()
      modifies this, buffer
      ensures Valid() && Open() && SameSettings()
      ensures Remaining() >= n
      ensures Position() == old(Position()) && Written() == old(Written())
      ensures n <= old(Remaining()) ==> unchanged(this) && unchanged(buffer)
      ensures n > old(Remaining()) ==>
        && fresh(buffer) && fresh(buffer.data)
        && buffer.Capacity() == Limit() == ExpandedSize(old(Limit()), old(Position()), n)
        && Limit() >= Position() + n
    {
      if n > buffer.Remaining() {
        ExpandBuffer(n);
      }
    }

    /** `write(int)`: the low byte of `b` is appended. */
    method Write(b: int)
      requires Valid() && Open()
      modifies this, buffer, buffer.data
      ensures Valid() && Open() && SameSettings()
      ensures Written() == old(Written()) + [ByteOf(b)]
      ensures 1 <= old(Remaining()) ==> buffer == old(buffer) && Limit() == old(Limit())
    {
      EnsureRemaining(1);
      ghost var before := buffer.data[..];
      buffer.PutByte(ByteOf(b));
      assert Written() == before[..buffer.position - 1] + [ByteOf(b)];
    }

    /**
     * `write(byte[], off, len)`: the `len` bytes from `off` are appended. Out
     * of range `off`/`len` throw `IndexOutOfBoundsException` (here `ok` is
     * false) after the buffer was made to fit `len`; nothing is written.
     */
    method WriteBytes(bytes: seq<bv8>, off: int, len: int) returns (ok: bool)
      requires Valid() && Open()
      modifies this, buffer, buffer.data
      ensures Valid() && Open() && SameSettings()
      ensures ok <==> 0 <= off && 0 <= len && off + len <= |bytes|
      ensures ok ==> Written() == old(Written()) + bytes[off..off + len]
      ensures !ok ==> Written() == old(Written())
      ensures len <= old(Remaining()) ==> buffer == old(buffer) && Limit() == old(Limit())
    {
      EnsureRemaining(len);
      if 0 <= off && 0 <= len && off + len <= |bytes| {
        buffer.PutBytes(bytes[off..off + len]);
        ok := true;
      } else {
        ok := false;
      }
    }

    /**
     * `write(ByteBuffer)`: the source's pending bytes are appended and the
     * source is drained. Writing the stream's own buffer into itself throws
     * `IllegalArgumentException` (here `ok` is false) and changes nothing.
     */
    method WriteBuffer(source: ByteBuffer) returns (ok: bool)
      requires Valid() && Open() && source.Valid()
      modifies this, buffer, buffer.data, source
      ensures Valid() && Open() && SameSettings()
      ensures ok <==> source != old(buffer)
      ensures ok ==> Written() == old(Written()) + old(source.Pending()) && source.position == source.limit
      ensures !ok ==> buffer == old(buffer) && unchanged(buffer) && unchanged(this)
      ensures old(source.Remaining()) <= old(Remaining()) ==> buffer == old(buffer) && Limit() == old(Limit())
    {
      EnsureRemaining(source.Remaining());
      if source != buffer {
        buffer.Put(source);
        ok := true;
      } else {
        ok := false;
      }
    }

    /**
     * `position(p)`: the buffer grows so that `p` is within its limit, then
     * the position moves to `p`. A negative `p` throws
     * `IllegalArgumentException` (here `ok` is false) and leaves the position.
     */
    method SetPosition(p: int) returns (ok: bool)
      requires Valid() && Open()
      modifies this, buffer
      ensures Valid() && Open() && SameSettings()
      ensures ok <==> p >= 0
      ensures Limit() >= p
      ensures ok ==> Position() == p
      ensures !ok ==> Position() == old(Position())
      ensures var keep := if p < old(Position()) then p else old(Position());
        keep >= 0 ==> Written()[..keep] == old(Written())[..keep]
    {
      EnsureRemaining(p - buffer.position);
      if p >= 0 {
        buffer.SetPosition(p);
        ok := true;
      } else {
        ok := false;
      }
    }

    /**
     * `close()`: a closeable stream drops its buffer, initial values and
     * `closeable`; one that is not closeable is left as it is. Once
     * `closeable` was dropped, unboxing the null `Boolean` throws
     * (here `failed`), until `markAsCloseable` sets it again.
     */
    method Close() returns (failed: bool)
      requires Valid()
      modifies this
      ensures Valid()
      ensures failed <==> old(closeable).None?
      ensures old(closeable) == Some(true) ==>
        buffer == null && initialCapacity.None? && initialPosition.None? && closeable.None?
      ensures old(closeable) != Some(true) ==> unchanged(this)
    {
      if closeable.None? {
        return true;
      }
      failed := false;
      if closeable.value {
        initialCapacity := None;
        initialPosition := None;
        buffer := null;
        closeable := None;
      }
    }
  }

  /**
   * `ByteBufferOutputStream(int, boolean)`: a stream over a new, empty buffer
   * of the given capacity. Allocating a buffer of negative capacity throws
   * `IllegalArgumentException`; here the result is `None`.
   */
  method NewStream(initialCapacity: int, closeable: bool) returns (r: Option<ByteBufferOutputStream>)
    ensures r.None? <==> initialCapacity < 0
    ensures r.Some? ==>
      && fresh(r.value) && fresh(r.value.buffer) && r.value.Valid() && r.value.Open()
      && r.value.Written() == [] && r.value.Limit() == r.value.buffer.Capacity() == initialCapacity
      && r.value.initialCapacity == Some(initialCapacity) && r.value.initialPosition == Some(0)
      && r.value.closeable == Some(closeable)
  {
    if initialCapacity < 0 {
      r := None;
    } else {
      var stream := new ByteBufferOutputStream(initialCapacity, closeable);
      r := Some(stream);
    }
  }
}
