/** The sending side of a session (Network/session.cpp): the scatter list handed to the socket. */
module Sessions {
  import opened Bytes
  import opened RingBuffers

  /** One WSABUF: a pointer into the ring buffer and a length. */
  datatype WsaBuf = WsaBuf(ptr: int, len: int)

  ghost predicate InBounds(b: WsaBuf, buf: ByteString) {
    0 <= b.ptr && 0 <= b.len && b.ptr + b.len <= |buf|
  }

  /** The bytes a gathering send reads, list entry by list entry. */
  ghost function Gather(buf: ByteString, bufs: seq<WsaBuf>): ByteString
    requires forall i :: 0 <= i < |bufs| ==> InBounds(bufs[i], buf)
  {
    if |bufs| == 0 then [] else assert InBounds(bufs[0], buf); buf[bufs[0].ptr..bufs[0].ptr + bufs[0].len] + Gather(buf, bufs[1..])
  }

  /** One or two contiguous pieces that together spell the buffered bytes, in order and completely. */
  method SetWsaBuf(rb: RingBuffer) returns (bufs: seq<WsaBuf>)
    requires rb.Valid()
    ensures 1 <= |bufs| <= 2
    ensures forall i :: 0 <= i < |bufs| ==> InBounds(bufs[i], rb.buf[..])
    ensures Gather(rb.buf[..], bufs) == rb.Contents()
    ensures |bufs| == 2 <==> rb.front + |rb.Contents()| > rb.size
  {
    var p := rb.GetFrontBufferPtr();
    var n := rb.GetContinuousDequeueSize();
    bufs := [WsaBuf(p, n)];
    ghost var b := rb.buf[..];
    assert Gather(b, bufs) == b[p..p + n] + Gather(b, bufs[1..]) == b[p..p + n];
    var used := rb.GetSizeInUse();
    if used > n {
      var rest := WsaBuf(0, used - n);
      bufs := bufs + [rest];
      assert bufs[1..] == [rest] && [rest][1..] == [];
      assert Gather(b, [rest]) == b[0..used - n];
      assert rb.Contents() == b[p..] + b[..rb.rear];
    }
  }

  /** A send that took the first `sent` bytes of the gathered list: they are the oldest bytes of the
      FIFO, and the buffer keeps exactly the others. */
  method CompleteSend(rb: RingBuffer, sent: nat) returns (ghost wire: ByteString)
    requires rb.Valid() && sent <= |rb.Contents()|
    modifies rb`front
    ensures rb.Valid() && |wire| == sent
    ensures wire + rb.Contents() == old(rb.Contents())
  {
    var bufs := SetWsaBuf(rb);
    wire := Gather(rb.buf[..], bufs)[..sent];
    rb.MoveFront(sent);
  }
}
