/**
  The compacting byte buffer of src/ioBuffer.h: ioBuffer, and ioBufferEx which keeps a consumed
  prefix.  ioBufferEx inherits ioBuffer privately, so the two are one object here; the members
  named Base... are those of ioBuffer, which ioBufferEx calls explicitly.

  The abstract value is the window, the bytes between the consumed prefix and the end.
*/
module IoBuffer {
  import opened Bytes

  /** The three positions of a buffer: consumed prefix, stored bytes, capacity. */
  datatype Fill = Fill(pos: nat, size: nat, max: nat) {
    predicate Valid() { pos <= size <= max && max > 0 }

    function Live(): int { size - pos }

    /** ioBuffer makes room for n bytes behind the stored ones. */
    function Room(n: nat): Fill {
      if size + n <= max then this else this.(max := 2 * Max(max, n))
    }

    /** ioBufferEx drops the consumed prefix when n more bytes would reach the capacity. */
    function Compacted(n: nat): Fill
      requires Valid()
    {
      if size + n >= max then Fill(0, size - pos, max) else this
    }

    function Popped(n: nat): Fill {
      if pos + n < size then this.(pos := pos + n) else Fill(0, 0, max)
    }
  }

  class IoBufferEx {
    var buffer: array<byte>  // m_buffer
    var max: nat             // m_max
    var size: nat            // m_size
    var expand: nat          // m_expand_size
    var pos: nat             // m_Pos

    ghost predicate Valid()
      reads this
    {
      pos <= size <= max && max > 0 && buffer.Length == max
    }

    function Window(): seq<byte>
      requires Valid()
      reads this, buffer
    {
      buffer[pos..size]
    }

    function Level(): Fill
      reads this
    {
      Fill(pos, size, max)
    }

    /** The memory of the allocation behind the stored bytes. */
    function Behind(): seq<byte>
      requires Valid()
      reads this, buffer
    {
      buffer[size..]
    }

    constructor (capacity: nat)
      requires capacity > 0
      ensures Valid() && fresh(buffer)
      ensures Window() == [] && Level() == Fill(0, 0, capacity) && expand == 0x1000
    {
      buffer := new byte[capacity];
      max, size, expand, pos := capacity, 0, 0x1000, 0;
    }

    // -------------------------------------------------------------------------------------------
    // ioBuffer

    /** Moves the stored bytes, consumed ones included, to a larger allocation. */
    method BaseReserve(newMax: nat)
      requires Valid() && newMax >= max
      modifies this`buffer, this`max
      ensures Valid() && fresh(buffer) && max == newMax
      ensures Window() == old(Window())
    {
      var bigger := new byte[newMax];
      forall i | 0 <= i < size {
        bigger[i] := buffer[i];
      }
      buffer, max := bigger, newMax;
      assert buffer[pos..size] == old(buffer[pos..size]);
    }

    /** ioBuffer::pop_front(n) on the stored bytes; it throws when n exceeds them. */
    method BasePopFront(n: nat) returns (ok: bool)
      requires Valid()
      modifies this`size, buffer
      ensures ok <==> n <= old(size)
      ensures !ok ==> unchanged(this) && unchanged(buffer)
      ensures ok ==> size == old(size) - n && buffer[..size] == old(buffer[n..size])
    {
      if n == size {
        size := 0;
        ok := true;
      } else if n < size {
        size := size - n;
        forall i | 0 <= i < size {
          buffer[i] := buffer[i + n];
        }
        ok := true;
      } else {
        ok := false;
      }
    }

    method BaseEmplace(n: nat)
      requires Valid()
      modifies this`buffer, this`max
      ensures Valid() && (buffer == old(buffer) || fresh(buffer))
      ensures Level() == old(Level()).Room(n) && size + n <= max
      ensures Window() == old(Window())
      ensures max == old(max) ==> buffer == old(buffer)
    {
      if size + n > max {
        var dmax := if max > n then max else n;
        BaseReserve(dmax * 2);
      }
    }

    method BasePushBack(other: seq<byte>)
      requires Valid()
      modifies this, buffer
      ensures Valid() && (buffer == old(buffer) || fresh(buffer))
      ensures Level() == old(Level()).Room(|other|).(size := old(size) + |other|) && expand == old(expand)
      ensures Window() == old(Window()) + other
    {
      if size + |other| > max {
        var dmax := if max > |other| then max else |other|;
        BaseReserve(dmax * 2);
      }
      Store(other);
    }

    /** memcpy behind the stored bytes, and the new size. */
    method Store(other: seq<byte>)
      requires Valid() && size + |other| <= max
      modifies this`size, buffer
      ensures Valid() && size == old(size) + |other|
      ensures Window() == old(Window()) + other && Behind() == old(Behind())[|other|..]
    {
      forall i | 0 <= i < |other| {
        buffer[size + i] := other[i];
      }
      size := size + |other|;
      assert buffer[pos..size] == old(buffer[pos..size]) + other;
    }

    // -------------------------------------------------------------------------------------------
    // ioBufferEx

    /** Drops the consumed prefix when n more bytes would reach the capacity. */
    method Compact(n: nat)
      requires Valid()
      modifies this`size, this`pos, buffer
      ensures Valid() && Window() == old(Window())
      ensures Level() == old(Level()).Compacted(n)
      ensures old(size) + n < max ==> unchanged(this) && unchanged(buffer)
    {
      if size + n >= max {
        if pos > 0 {
          var _ := BasePopFront(pos);
          pos := 0;
        }
      }
    }

    method PushBack(other: seq<byte>)
      requires Valid()
      modifies this, buffer
      ensures Valid() && (buffer == old(buffer) || fresh(buffer)) && expand == old(expand)
      ensures Window() == old(Window()) + other
      ensures var l := old(Level()).Compacted(|other|); Level() == l.Room(|other|).(size := l.size + |other|)
    {
      Compact(|other|);
      BasePushBack(other);
    }

    method Emplace(n: nat)
      requires Valid()
      modifies this, buffer
      ensures Valid() && (buffer == old(buffer) || fresh(buffer)) && expand == old(expand)
      ensures Window() == old(Window()) && size + n <= max
      ensures Level() == old(Level()).Compacted(n).Room(n)
    {
      Compact(n);
      BaseEmplace(n);
    }

    method PopFront(n: nat)
      requires Valid()
      modifies this`size, this`pos
      ensures Valid()
      ensures Window() == old(Window())[Min(n, |old(Window())|)..]
      ensures Level() == old(Level()).Popped(n)
    {
      pos := pos + n;
      if pos >= size {
        size, pos := 0, 0;
      }
    }

    method Empty() returns (r: bool)
      requires Valid()
      modifies this`size, this`pos
      ensures Valid() && Window() == old(Window()) && (r <==> Window() == [])
      ensures Level() == old(Level()).Popped(0)
    {
      if size == 0 {
        return true;
      }
      if pos < size {
        return false;
      }
      size, pos := 0, 0;
      r := true;
    }

    /** The byte at an offset into the window; out of range throws. */
    method At(i: nat) returns (ok: bool, b: byte)
      requires Valid()
      ensures ok <==> i < |Window()|
      ensures ok ==> b == Window()[i]
    {
      ok, b := pos + i < size, 0;
      if ok {
        b := buffer[pos + i];
      }
    }

    method Clear()
      requires Valid()
      modifies this`size, this`pos
      ensures Valid() && Window() == [] && Level() == Fill(0, 0, old(max))
    {
      PopFront(size - pos);
    }

    method Reserve(c: nat)
      requires Valid()
      modifies this`buffer, this`max
      ensures Valid() && (buffer == old(buffer) || fresh(buffer))
      ensures Window() == old(Window()) && max == Max(old(max), pos + c)
    {
      if c < max - pos {
        return;
      }
      BaseReserve(pos + c);
    }

    /** ioBuffer::append, which ioBufferEx re-exports.  The callback reads from `source`, at most
        `want` bytes and at most the room behind the stored ones.  It calls ioBuffer's emplace, so
        the consumed prefix stays. */
    method Append(source: seq<byte>, want: nat) returns (r: nat)
      requires Valid()
      modifies this, buffer
      ensures Valid() && (buffer == old(buffer) || fresh(buffer)) && expand == old(expand)
      ensures var l := old(Level()).Room(expand);
        r == Min(Min(want, |source|), l.max - l.size) && Level() == l.(size := l.size + r)
      ensures r < Min(want, |source|) ==> r >= expand
      ensures Window() == old(Window()) + source[..r]
      ensures max == old(max) ==> buffer == old(buffer) && Behind() == old(Behind())[r..]
      ensures max <= Max(old(max), 2 * (|old(Window())| + expand))
         <==> !(|old(Window())| + expand < old(max) < old(size) + expand)
    {
      BaseEmplace(expand);
      r := Min(Min(want, |source|), max - size);
      if r > 0 {
        Store(source[..r]);
      }
    }
  }
}
