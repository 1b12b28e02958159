/** The circular byte buffer of Network/ring_buffer.cpp, refined to a FIFO byte sequence.
    Pointers into the buffer are modelled as indices into `buf`. */
module RingBuffers {
  import opened Bytes

  const DEFAULT_RINGBUFFER_SIZE := 1024 * 16
  const MAX_INT32 := 0x7fff_ffff
  const MAX_SIZE := 0x3fff_ffff // so that an index plus a size cannot overflow int32

  /** The bytes held between two indices of a circular buffer with one slot kept empty. */
  ghost function Span(buf: seq<Byte>, front: int, rear: int): (s: seq<Byte>)
    requires 0 <= front < |buf| && 0 <= rear < |buf|
  {
    if front <= rear then buf[front..rear] else buf[front..] + buf[..rear]
  }

  /** Where an index lands after k steps round a buffer of n slots. */
  ghost function Advance(i: int, k: int, n: int): (j: int)
    requires 0 <= i < n && 0 <= k <= n
    ensures 0 <= j < n
  {
    if i + k < n then i + k else i + k - n
  }

  lemma ModSmall(a: int, n: int)
    requires 0 <= a < n
    ensures a % n == a
  {}

  lemma ModWrap(a: int, n: int)
    requires 0 < n <= a < 2 * n
    ensures a % n == a - n
  {
    ModSmall(a - n, n);
    assert a == 1 * n + (a - n);
  }

  lemma ModIsAdvance(i: int, k: int, n: int)
    requires 0 <= i < n && 0 <= k <= n
    ensures (i + k) % n == Advance(i, k, n)
  {
    if i + k < n { ModSmall(i + k, n); } else { ModWrap(i + k, n); }
  }

  lemma AdvanceStep(i: int, k: int, n: int)
    requires 0 <= i < n && 0 <= k < n
    ensures (Advance(i, k, n) + 1) % n == Advance(i, k + 1, n)
  {
    ModIsAdvance(Advance(i, k, n), 1, n);
  }

  lemma SpanLength(buf: seq<Byte>, front: int, rear: int)
    requires 0 <= front < |buf| && 0 <= rear < |buf|
    ensures |Span(buf, front, rear)| == if front > rear then |buf| - (front - rear) else rear - front
    ensures |Span(buf, front, rear)| < |buf|
  {}

  lemma SpanAt(buf: seq<Byte>, front: int, rear: int, i: int)
    requires 0 <= front < |buf| && 0 <= rear < |buf|
    requires 0 <= i < |Span(buf, front, rear)|
    ensures Span(buf, front, rear)[i] == buf[Advance(front, i, |buf|)]
  {}

  /** Dropping k bytes from the front is a move of the front index. */
  lemma SpanDrop(buf: seq<Byte>, front: int, rear: int, k: int)
    requires 0 <= front < |buf| && 0 <= rear < |buf|
    requires 0 <= k <= |Span(buf, front, rear)|
    ensures Span(buf, Advance(front, k, |buf|), rear) == Span(buf, front, rear)[k..]
  {}

  lemma AppendNext(c: seq<Byte>, src: seq<Byte>, i: nat)
    requires i < |src|
    ensures c + src[..i] + [src[i]] == c + src[..i + 1]
  {
  }

  /** Moving the rear index on joins the bytes it passes. */
  lemma SpanExtend(buf: seq<Byte>, front: int, rear: int, n: int)
    requires 0 <= front < |buf| && 0 <= rear < |buf|
    requires 0 <= n && |Span(buf, front, rear)| + n < |buf|
    ensures var rear' := Advance(rear, n, |buf|);
            Span(buf, front, rear') == Span(buf, front, rear) + Span(buf, rear, rear') && |Span(buf, rear, rear')| == n
  {
  }

  /** As long as n bytes do not run past the end of the array, they lie there in one piece. */
  lemma SpanContiguous(buf: seq<Byte>, front: int, rear: int, n: int)
    requires 0 <= front < |buf| && 0 <= rear < |buf|
    requires 0 <= n <= |Span(buf, front, rear)| && front + n <= |buf|
    ensures buf[front..front + n] == Span(buf, front, rear)[..n]
  {}

  lemma SpanPush(buf: seq<Byte>, front: int, rear: int, x: Byte)
    requires 0 <= front < |buf| && 0 <= rear < |buf|
    requires Advance(rear, 1, |buf|) != front
    ensures Span(buf[rear := x], front, Advance(rear, 1, |buf|)) == Span(buf, front, rear) + [x]
  {}

  /** What raw writing does: `bytes` stored at the rear pointer without wrapping, then
      the rear index moved by that many. It is an append exactly when the bytes fit the free size. */
  lemma RawWriteIsAppend(buf: seq<Byte>, buf': seq<Byte>, front: int, rear: int, bytes: seq<Byte>)
    requires 0 <= front < |buf| && 0 <= rear < |buf|
    requires rear + |bytes| <= |buf|
    requires buf' == buf[..rear] + bytes + buf[rear + |bytes|..]
    ensures Span(buf', front, Advance(rear, |bytes|, |buf|)) == Span(buf, front, rear) + bytes
            <==> |Span(buf, front, rear)| + |bytes| <= |buf| - 1
  {
    var k := |bytes|;
    var s, s' := Span(buf, front, rear), Span(buf', front, Advance(rear, k, |buf|));
    SpanLength(buf, front, rear);
    SpanLength(buf', front, Advance(rear, k, |buf|));
    if |s| + k <= |buf| - 1 {
      assert |s'| == |s| + k;
      forall i | 0 <= i < |s'| ensures s'[i] == (s + bytes)[i] {
        SpanAt(buf', front, Advance(rear, k, |buf|), i);
        if i < |s| { SpanAt(buf, front, rear, i); }
      }
    }
  }

  class RingBuffer {
    const buf: array<Byte>
    const size: int
    var front: int
    var rear: int

    ghost predicate Valid()
      reads this
    {
      buf.Length == size && 0 < size <= MAX_SIZE && 0 <= front < size && 0 <= rear < size
    }

    /** The FIFO sequence this buffer stands for. */
    ghost function Contents(): (s: seq<Byte>)
      requires Valid()
      reads this, buf
      ensures |s| < size
    {
      SpanLength(buf[..], front, rear);
      Span(buf[..], front, rear)
    }

    constructor ()
      ensures Valid() && fresh(buf) && size == DEFAULT_RINGBUFFER_SIZE
      ensures Contents() == [] && front == rear == 0
    {
      buf := new Byte[DEFAULT_RINGBUFFER_SIZE];
      front := 0;
      rear := 0;
      size := DEFAULT_RINGBUFFER_SIZE;
    }

    method GetSizeInUse() returns (n: int)
      requires Valid()
      ensures n == |Contents()|
    {
      if front > rear { return size - (front - rear); }
      return rear - front;
    }

    method GetFreeSize() returns (n: int)
      requires Valid()
      ensures n == size - 1 - |Contents()|
    {
      var used := GetSizeInUse();
      return size - used - 1;
    }

    /** May reset both indices of an empty buffer; never changes the contents. The result is the room
        before the end of the array or before `front`, not the free size: one more than the free
        size when the free run stops at `front`, and after the reset. */
    method GetContinuousEnqueueSize() returns (n: int)
      requires Valid()
      modifies this`front, this`rear
      ensures Valid() && Contents() == old(Contents())
      ensures 0 <= n && rear + n <= size
      ensures if old(front == rear == size - 1) then front == rear == 0 && n == size
              else front == old(front) && rear == old(rear)
      ensures n == if |Contents()| == size - 1 && !old(front == rear == size - 1) then 0
                   else if front > rear || (old(front == rear == size - 1)) then size - |Contents()|
                   else if rear == size - 1 then 1
                   else size - rear - 1
    {
      ModIsAdvance(rear, 1, size);
      if front == size - 1 && front == rear {
        front := 0;
        rear := 0;
        return size;
      }
      if (rear + 1) % size == front { return 0; }
      if front > rear { return front - rear; }
      if rear == size - 1 { return 1; }
      return size - rear - 1;
    }

    method GetContinuousDequeueSize() returns (n: int)
      requires Valid()
      ensures n == Min(|Contents()|, size - front)
      ensures buf[front..front + n] == Contents()[..n]
    {
      if front == rear { return 0; }
      if front == size - 1 { return 1; }
      if front > rear { return size - front; }
      return rear - front;
    }

    /** The body of the copying loop. */
    method Push(x: Byte)
      requires Valid() && Advance(rear, 1, size) != front
      modifies this`rear, buf
      ensures Valid() && rear == Advance(old(rear), 1, size)
      ensures Contents() == old(Contents()) + [x]
    {
      ghost var b := buf[..];
      ModIsAdvance(rear, 1, size);
      SpanPush(b, front, rear, x);
      buf[rear] := x;
      assert buf[..] == b[rear := x];
      rear := (rear + 1) % size;
    }

    /** Appends the longest prefix that fits. The result is the move of `rear`, hence the number
        of bytes stored only when `rear` did not wrap. */
    method Enqueue(src: seq<Byte>, len: int) returns (r: int)
      requires Valid() && len <= |src|
      modifies this`rear, buf
      ensures Valid()
      ensures var k := Min(Max(len, 0), size - 1 - old(|Contents()|));
              && Contents() == old(Contents()) + src[..k]
              && rear == Advance(old(rear), k, size)
              && r == if old(rear) + k < size then k else k - size
    {
      var free := GetFreeSize();
      if free == 0 { return 0; }
      ghost var c := Contents();
      var oldRear := rear;
      var i := 0;
      while i < len
        invariant 0 <= i <= Max(len, 0) && i <= size - 1 - |c|
        invariant Valid() && rear == Advance(oldRear, i, size)
        invariant Contents() == c + src[..i]
      {
        AdvanceStep(oldRear, i, size);
        if (rear + 1) % size == front {
          assert i == size - 1 - |c|;
          break;
        }
        assert (rear + 1) % size == Advance(rear, 1, size) by { ModIsAdvance(rear, 1, size); }
        Push(src[i]);
        AppendNext(c, src, i);
        i := i + 1;
      }
      return rear - oldRear;
    }

    /** Removes the longest prefix of at most len bytes and copies it out. */
    method Dequeue(dest: array<Byte>, len: int) returns (r: int)
      requires Valid() && len <= dest.Length && dest != buf
      modifies this`front, dest
      ensures Valid()
      ensures var k := Min(Max(len, 0), old(|Contents()|));
              && Contents() == old(Contents())[k..]
              && dest[..] == old(Contents())[..k] + old(dest[..])[k..]
              && front == Advance(old(front), k, size)
              && r == if old(front) + k < size then k else k - size
    {
      ghost var b, c, d := buf[..], Contents(), dest[..];
      var used := GetSizeInUse();
      if used == 0 { return 0; }
      var oldFront := front;
      var i := 0;
      while i < len
        invariant 0 <= i <= Max(len, 0) && i <= |c|
        invariant Valid() && front == Advance(oldFront, i, size)
        invariant forall j :: 0 <= j < size ==> buf[j] == b[j]
        invariant forall j :: 0 <= j < i ==> dest[j] == c[j]
        invariant forall j :: i <= j < dest.Length ==> dest[j] == d[j]
      {
        AdvanceStep(oldFront, i, size);
        if front == rear {
          assert i == |c|;
          break;
        }
        SpanAt(b, oldFront, rear, i);
        dest[i] := buf[front];
        front := (front + 1) % size;
        i := i + 1;
      }
      assert buf[..] == b && dest[..] == c[..i] + d[i..];
      SpanDrop(b, oldFront, rear, i);
      assert i == Min(Max(len, 0), |c|);
      assert Contents() == c[i..];
      return front - oldFront;
    }

    /** Copies the same prefix out and leaves the buffer alone; here the result is the true count. */
    method Peek(dest: array<Byte>, len: int) returns (r: int)
      requires Valid() && len <= dest.Length && dest != buf
      modifies dest
      ensures r == Min(Max(len, 0), |Contents()|)
      ensures Contents() == old(Contents()) && dest[..] == Contents()[..r] + old(dest[..])[r..]
    {
      ghost var b, c, d := buf[..], Contents(), dest[..];
      r := 0;
      var tmp := front;
      var i := 0;
      while i < len
        invariant 0 <= r == i <= Max(len, 0) && r <= |c|
        invariant tmp == Advance(front, r, size)
        invariant forall j :: 0 <= j < size ==> buf[j] == b[j]
        invariant forall j :: 0 <= j < r ==> dest[j] == c[j]
        invariant forall j :: r <= j < dest.Length ==> dest[j] == d[j]
      {
        AdvanceStep(front, r, size);
        if tmp == rear {
          assert r == |c|;
          break;
        }
        SpanAt(b, front, rear, r);
        dest[i] := buf[tmp];
        tmp := (tmp + 1) % size;
        r := r + 1;
        i := i + 1;
      }
      assert buf[..] == b && dest[..] == c[..r] + d[r..];
    }

    /** A move of the rear index only. Within the free size it appends whatever bytes already lie
        between the old index and the new one. */
    method MoveRear(n: int)
      requires Valid() && 0 <= n && rear + n <= MAX_INT32
      modifies this`rear
      ensures Valid() && rear == (old(rear) + n) % size
      ensures n <= size - 1 - |old(Contents())| ==>
                Contents() == old(Contents()) + Span(buf[..], old(rear), rear) && |Contents()| == |old(Contents())| + n
    {
      if n <= size - 1 - |Contents()| {
        ModIsAdvance(rear, n, size);
        SpanExtend(buf[..], front, rear, n);
      }
      rear := (rear + n) % size;
    }

    method MoveFront(n: int)
      requires Valid() && 0 <= n && front + n <= MAX_INT32
      modifies this`front
      ensures Valid() && front == (old(front) + n) % size
      ensures n <= |old(Contents())| ==> Contents() == old(Contents())[n..] && front == Advance(old(front), n, size)
    {
      if n <= |Contents()| {
        ModIsAdvance(front, n, size);
        SpanDrop(buf[..], front, rear, n);
      }
      front := (front + n) % size;
    }

    method GetFrontBufferPtr() returns (p: int)
      requires Valid()
      ensures p == front
    {
      ModSmall(front, size);
      return front % size;
    }

    method GetRearBufferPtr() returns (p: int)
      requires Valid()
      ensures p == rear
    {
      ModSmall(rear, size);
      return rear % size;
    }

    method ClearBuffer()
      requires Valid()
      modifies this`front, this`rear
      ensures Valid() && Contents() == [] && front == rear == 0
    {
      front := 0;
      rear := 0;
    }
  }

  /** Bytes stored through a raw pointer, as a receive call would. */
  method StoreAt(buf: array<Byte>, p: int, src: seq<Byte>)
    requires 0 <= p && p + |src| <= buf.Length
    modifies buf
    ensures buf[..] == old(buf[..p]) + src + old(buf[p + |src|..])
  {
    for i := 0 to |src|
      invariant forall j :: 0 <= j < buf.Length ==> buf[j] == if p <= j < p + i then src[j - p] else old(buf[j])
    {
      buf[p + i] := src[i];
    }
  }

  /** Bytes that fit before the end of the array and within the free size, written at the rear pointer. */
  method WriteAtRear(rb: RingBuffer, bytes: seq<Byte>)
    requires rb.Valid() && rb.rear + |bytes| <= rb.size && |rb.Contents()| + |bytes| < rb.size
    modifies rb`rear, rb.buf
    ensures rb.Valid() && rb.Contents() == old(rb.Contents()) + bytes
  {
    var p := rb.GetRearBufferPtr();
    ghost var before := rb.buf[..];
    StoreAt(rb.buf, p, bytes);
    RawWriteIsAppend(before, rb.buf[..], rb.front, rb.rear, bytes);
    ModIsAdvance(rb.rear, |bytes|, rb.size);
    rb.MoveRear(|bytes|);
  }

  /** A producer on the raw-pointer API: at most `GetContinuousEnqueueSize()` and at most
      `GetFreeSize()` bytes written at the rear pointer, then `MoveRear`. It is a plain append. */
  method RawEnqueue(rb: RingBuffer, src: seq<Byte>) returns (k: int)
    requires rb.Valid()
    modifies rb, rb.buf
    ensures rb.Valid() && 0 <= k <= |src|
    ensures rb.Contents() == old(rb.Contents()) + src[..k]
    ensures k == 0 ==> src == [] || |rb.Contents()| == rb.size - 1
  {
    var room := rb.GetContinuousEnqueueSize();
    var free := rb.GetFreeSize();
    k := Min(|src|, Min(room, free));
    WriteAtRear(rb, src[..k]);
  }

  /** Looking at n bytes and then moving past those that were there does what taking n bytes out does,
      except that the answer is the true count. */
  method PeekThenMoveFront(rb: RingBuffer, dest: array<Byte>, len: int) returns (n: int)
    requires rb.Valid() && len <= dest.Length && dest != rb.buf
    modifies rb`front, dest
    ensures rb.Valid()
    ensures var k := Min(Max(len, 0), old(|rb.Contents()|));
            && n == k
            && rb.Contents() == old(rb.Contents())[k..]
            && dest[..] == old(rb.Contents())[..k] + old(dest[..])[k..]
            && rb.front == Advance(old(rb.front), k, rb.size)
  {
    n := rb.Peek(dest, len);
    ModIsAdvance(rb.front, n, rb.size);
    rb.MoveFront(n);
  }
}
