/** One connected user (Content/user.h, Content/user.cpp): login and room state, and the receive
    buffer from which packets are extracted. */
module Users {
  import opened Bytes
  import opened RingBuffers
  import opened Framing

  datatype DomainState = NotLoggedIn | InLobby | InRoom // kNONE, kLOGIN, kROOM

  /** `data` is the raw front pointer, as an index into the ring buffer. */
  datatype PacketInfo = PacketInfo(sessionIndex: int, id: nat, size: nat, data: int)

  /** What a handler relies on when it casts the raw pointer: the whole packet lies there. */
  ghost predicate InOnePiece(buf: ByteString, p: int, packet: ByteString) {
    0 <= p && p + |packet| <= |buf| && buf[p..p + |packet|] == packet
  }

  class User {
    const sessionIdx: int
    const packetBuf: RingBuffer
    var roomIdx: int
    var userId: ByteString
    var confirmed: bool
    var domain: DomainState

    ghost predicate Valid()
      reads this, packetBuf
    {
      packetBuf.Valid() && packetBuf.size == DEFAULT_RINGBUFFER_SIZE
    }

    ghost function Buffered(): ByteString
      requires Valid()
      reads this, packetBuf, packetBuf.buf
    {
      packetBuf.Contents()
    }

    constructor (sessionIdx: int)
      ensures Valid() && fresh(packetBuf) && fresh(packetBuf.buf) && Buffered() == []
      ensures this.sessionIdx == sessionIdx && roomIdx == -1 && userId == [] && packetBuf.front == 0
      ensures !confirmed && domain == NotLoggedIn
    {
      this.sessionIdx := sessionIdx;
      packetBuf := new RingBuffer();
      roomIdx := -1;
      userId := [];
      confirmed := false;
      domain := NotLoggedIn;
    }

    method Clear()
      requires Valid()
      modifies this, packetBuf
      ensures Valid() && Buffered() == []
      ensures roomIdx == -1 && userId == [] && !confirmed && domain == NotLoggedIn
    {
      roomIdx := -1;
      userId := [];
      confirmed := false;
      domain := NotLoggedIn;
      packetBuf.ClearBuffer();
    }

    method SetLogin(userId: ByteString)
      modifies this`domain, this`userId
      ensures domain == InLobby && this.userId == userId
    {
      domain := InLobby;
      this.userId := userId;
    }

    method EnterRoom(roomIdx: int)
      modifies this`roomIdx, this`domain
      ensures this.roomIdx == roomIdx && domain == InRoom
    {
      this.roomIdx := roomIdx;
      domain := InRoom;
    }

    /** Finds a packet exactly when one is complete in the buffer. Its raw pointer spells the packet
        exactly when the packet does not run past the end of the array; otherwise a handler that reads
        on from there leaves the array. */
    method GetPacketData() returns (r: Option<PacketInfo>)
      requires Valid()
      ensures Valid() && Buffered() == old(Buffered())
      ensures r.Some? <==> |Buffered()| >= HEADER && |Buffered()| >= SizeField(Buffered())
      ensures r.Some? ==>
                && r.value == PacketInfo(sessionIdx, IdField(Buffered()), SizeField(Buffered()), packetBuf.front)
                && |NextPacket(Buffered()).value| == r.value.size
      ensures r.Some? ==>
                (InOnePiece(packetBuf.buf[..], r.value.data, NextPacket(Buffered()).value)
                 <==> r.value.data + r.value.size <= packetBuf.size)
    {
      var header := new Byte[HEADER];
      var peeked := packetBuf.Peek(header, HEADER);
      if peeked != HEADER { return None; }
      ghost var c := Buffered();
      SameHeader(header[..], c);
      var size := LittleEndian16(header[0], header[1]);
      var used := packetBuf.GetSizeInUse();
      if used < size { return None; }
      var p := packetBuf.GetFrontBufferPtr();
      r := Some(PacketInfo(sessionIdx, LittleEndian16(header[2], header[3]), size, p));
      if p + size <= packetBuf.size {
        SpanContiguous(packetBuf.buf[..], p, packetBuf.rear, size);
      }
    }

    /** True when nothing is left to process. */
    method CompleteProcess(pktSize: nat) returns (done: bool)
      requires Valid() && pktSize < 0x1_0000
      modifies packetBuf`front
      ensures Valid()
      ensures pktSize <= |old(Buffered())| ==>
                && Buffered() == old(Buffered())[pktSize..]
                && packetBuf.front == Advance(old(packetBuf.front), pktSize, packetBuf.size)
      ensures done <==> Buffered() == []
    {
      packetBuf.MoveFront(pktSize);
      var used := packetBuf.GetSizeInUse();
      return !(used > 0);
    }

    /** Stores the longest prefix that fits. The answer is true exactly when everything was stored
        and the rear index did not wrap: a stored chunk that wraps is reported as false. */
    method EnqueuePacketData(src: ByteString, len: int) returns (ok: bool)
      requires Valid() && 0 <= len <= |src|
      modifies packetBuf`rear, packetBuf.buf
      ensures Valid()
      ensures Buffered() == old(Buffered()) + src[..Min(len, CAPACITY - |old(Buffered())|)]
      ensures ok <==> len <= CAPACITY - |old(Buffered())| && old(packetBuf.rear) + len < packetBuf.size
    {
      var moved := packetBuf.Enqueue(src, len);
      return moved == len;
    }

    /** What lies at the front pointer: the packet, cut off where the array ends. */
    method ReadAtFront(size: nat) returns (seen: ByteString)
      requires Valid() && size <= |Buffered()|
      ensures seen == Buffered()[..Min(size, DEFAULT_RINGBUFFER_SIZE - packetBuf.front)]
    {
      var p := packetBuf.GetFrontBufferPtr();
      var n := Min(size, packetBuf.size - p);
      SpanContiguous(packetBuf.buf[..], p, packetBuf.rear, n);
      return packetBuf.buf[p..p + n];
    }

    /** One turn of the packet thread for this session, for a packet whose id has a handler. `seen` is
        what the handler finds at the raw pointer inside the array. */
    method PollOnce(ghost out: seq<ByteString>)
      returns (found: Option<PacketInfo>, seen: ByteString, done: bool, ghost out': seq<ByteString>)
      requires Valid()
      modifies packetBuf`front
      ensures Valid()
      ensures Step(Stream(old(Buffered()), out), Poll) == Stream(Buffered(), out')
      ensures found.Some? <==> NextPacket(old(Buffered())).Some?
      ensures found.Some? ==> found.value.size == SizeField(old(Buffered())) && found.value.id == IdField(old(Buffered()))
      ensures Advanced(old(packetBuf.front), packetBuf.front, found)
      ensures found.Some? ==> Sees(found.value.data, NextPacket(old(Buffered())).value, seen)
      ensures done <==> found.None? || Buffered() == []
    {
      found := GetPacketData();
      seen, done, out' := [], true, out;
      if found.Some? {
        ghost var packet := NextPacket(Buffered()).value;
        seen := ReadAtFront(found.value.size);
        assert seen == packet[..|seen|];
        out' := out + [packet];
        done := CompleteProcess(found.value.size);
      }
    }

    /** One event of the session: a received chunk is enqueued, a poll extracts at most one packet. */
    method Handle(e: Event, ghost out: seq<ByteString>)
      returns (found: Option<PacketInfo>, seen: ByteString, ghost out': seq<ByteString>)
      requires Valid() && |Step(Stream(Buffered(), out), e).buffered| <= CAPACITY
      modifies packetBuf`front, packetBuf`rear, packetBuf.buf
      ensures Valid()
      ensures Step(Stream(old(Buffered()), out), e) == Stream(Buffered(), out')
      ensures Advanced(old(packetBuf.front), packetBuf.front, found)
      ensures if found.None? then out' == out
              else && |out'| == |out| + 1 && out' == out + [out'[|out|]] && |out'[|out|]| == found.value.size
                   && Describes([found.value], [out'[|out|]]) && Sees(found.value.data, out'[|out|], seen)
    {
      ghost var c := Buffered();
      match e {
        case Receive(chunk) =>
          var _ := EnqueuePacketData(chunk, |chunk|);
          assert chunk[..|chunk|] == chunk;
          found, seen, out' := None, [], out;
        case Poll =>
          var done;
          found, seen, done, out' := PollOnce(out);
          if found.Some? { PolledHeader(c); }
      }
    }

    /** The next event, with what the handlers were given so far. */
    method HandleNext(e: Event, extracted: seq<PacketInfo>, seen: seq<ByteString>, ghost packets: seq<ByteString>,
                      ghost front0: int)
      returns (extracted': seq<PacketInfo>, seen': seq<ByteString>, ghost packets': seq<ByteString>)
      requires Valid() && |Step(Stream(Buffered(), packets), e).buffered| <= CAPACITY
      requires Describes(extracted, packets) && Placed(front0, packets, seen)
      requires packetBuf.front == Place(front0, packets, |packets|)
      modifies packetBuf`front, packetBuf`rear, packetBuf.buf
      ensures Valid()
      ensures Step(Stream(old(Buffered()), packets), e) == Stream(Buffered(), packets')
      ensures Describes(extracted', packets') && Placed(front0, packets', seen')
      ensures packetBuf.front == Place(front0, packets', |packets'|)
    {
      var found, view;
      found, view, packets' := Handle(e, packets);
      extracted', seen' := extracted, seen;
      if found.Some? {
        ghost var p := packets'[|packets|];
        PlacedNext(front0, packets, seen, p, view);
        PlaceNext(front0, packets, p);
        extracted', seen' := extracted + [found.value], seen + [view];
      }
    }

    /** The packet thread's handling of one session's events, in any interleaving. */
    method Process(events: seq<Event>)
      returns (extracted: seq<PacketInfo>, seen: seq<ByteString>, ghost packets: seq<ByteString>)
      requires Valid()
      requires Fits(Stream(Buffered(), []), events)
      modifies packetBuf, packetBuf.buf
      ensures Valid()
      ensures Run(Stream(old(Buffered()), []), events) == Stream(Buffered(), packets)
      ensures Describes(extracted, packets) && Placed(old(packetBuf.front), packets, seen)
    {
      extracted, seen, packets := [], [], [];
      ghost var s, front0 := Stream(Buffered(), []), packetBuf.front;
      ghost var start := s;
      var i := 0;
      while i < |events|
        invariant 0 <= i <= |events| && Valid() && s == Stream(Buffered(), packets)
        invariant Fits(s, events[i..]) && Run(start, events) == Run(s, events[i..])
        invariant Describes(extracted, packets) && Placed(front0, packets, seen)
        invariant packetBuf.front == Place(front0, packets, |packets|)
      {
        assert events[i..][0] == events[i] && events[i..][1..] == events[i + 1..];
        extracted, seen, packets := HandleNext(events[i], extracted, seen, packets, front0);
        s := Step(s, events[i]);
        i := i + 1;
      }
    }
  }

  /** The front index moves by each packet found. */
  ghost predicate Advanced(front: int, front': int, found: Option<PacketInfo>) {
    match found
    case None => front' == front
    case Some(info) =>
      && 0 <= info.data == front < DEFAULT_RINGBUFFER_SIZE && info.size <= DEFAULT_RINGBUFFER_SIZE
      && front' == Advance(front, info.size, DEFAULT_RINGBUFFER_SIZE)
  }

  /** From p to the end of the packet or of the array, whichever comes first. */
  ghost predicate Sees(p: int, packet: ByteString, seen: ByteString) {
    0 <= p < DEFAULT_RINGBUFFER_SIZE && seen == packet[..Min(|packet|, DEFAULT_RINGBUFFER_SIZE - p)]
  }

  /** Where each packet lies, from the packets before it alone. */
  ghost function Place(front0: int, packets: seq<ByteString>, k: nat): (p: int)
    requires k <= |packets|
    ensures 0 <= p < DEFAULT_RINGBUFFER_SIZE
  {
    (front0 + |Concat(packets[..k])|) % DEFAULT_RINGBUFFER_SIZE
  }

  ghost predicate Placed(front0: int, packets: seq<ByteString>, seen: seq<ByteString>) {
    |seen| == |packets| && forall k :: 0 <= k < |packets| ==> Sees(Place(front0, packets, k), packets[k], seen[k])
  }

  lemma ModSum(a: int, b: int)
    ensures (a % DEFAULT_RINGBUFFER_SIZE + b) % DEFAULT_RINGBUFFER_SIZE == (a + b) % DEFAULT_RINGBUFFER_SIZE
  {
  }

  lemma PlacedNext(front0: int, packets: seq<ByteString>, seen: seq<ByteString>, p: ByteString, view: ByteString)
    requires Placed(front0, packets, seen) && Sees(Place(front0, packets, |packets|), p, view)
    ensures Placed(front0, packets + [p], seen + [view])
  {
    var all := packets + [p];
    forall k | 0 <= k < |all| ensures Sees(Place(front0, all, k), all[k], (seen + [view])[k]) {
      assert all[..k] == packets[..k];
    }
  }

  lemma PlaceNext(front0: int, packets: seq<ByteString>, p: ByteString)
    requires |p| <= DEFAULT_RINGBUFFER_SIZE
    ensures Advance(Place(front0, packets, |packets|), |p|, DEFAULT_RINGBUFFER_SIZE)
            == Place(front0, packets + [p], |packets| + 1)
  {
    ModIsAdvance(Place(front0, packets, |packets|), |p|, DEFAULT_RINGBUFFER_SIZE);
    assert packets[..|packets|] == packets && (packets + [p])[..|packets| + 1] == packets + [p];
    ConcatSnoc(packets, p);
    ModSum(front0 + |Concat(packets)|, |p|);
  }

  lemma PolledHeader(c: ByteString)
    requires NextPacket(c).Some?
    ensures var p := NextPacket(c).value;
            |p| >= HEADER ==> SizeField(p) == SizeField(c) && IdField(p) == IdField(c)
  {
    var p := NextPacket(c).value;
    if |p| >= HEADER {
      assert forall i :: 0 <= i < HEADER ==> p[i] == c[i];
    }
  }

  lemma SameHeader(header: ByteString, c: ByteString)
    requires |c| >= HEADER && header == c[..HEADER] + []
    ensures SizeField(header) == SizeField(c) && IdField(header) == IdField(c)
  {
    assert forall i :: 0 <= i < HEADER ==> header[i] == c[i];
  }

  /** The handlers were given the size and id in the header of each packet, in order. */
  ghost predicate Describes(infos: seq<PacketInfo>, packets: seq<ByteString>) {
    && |infos| == |packets|
    && forall i :: 0 <= i < |packets| && |packets[i]| >= HEADER ==>
         infos[i].size == SizeField(packets[i]) && infos[i].id == IdField(packets[i])
  }

  /** Every chunk fits the free space it meets. */
  ghost predicate Fits(s: Stream, es: seq<Event>)
    decreases |es|
  {
    |s.buffered| <= CAPACITY && (es == [] || Fits(Step(s, es[0]), es[1..]))
  }

  /** Handler k is given the whole packet exactly when that does not run past the end of the array. */
  ghost predicate WholeUnlessWrapped(front0: int, sent: seq<ByteString>, seen: seq<ByteString>) {
    && |seen| <= |sent|
    && forall k :: 0 <= k < |seen| ==>
         (seen[k] == sent[k]
          <==> (front0 + |Concat(sent[..k])|) % DEFAULT_RINGBUFFER_SIZE + |sent[k]| <= DEFAULT_RINGBUFFER_SIZE)
  }

  /** The whole path, from the bytes on the wire to the packets handed to the handlers. Where packet k lies,
      and so whether its handler sees all of it, depends on the sizes of the packets before it and not on
      the chunks. */
  method ReceiveStream(user: User, ghost sent: seq<ByteString>, events: seq<Event>, ghost rest: ByteString)
    returns (extracted: seq<PacketInfo>, seen: seq<ByteString>)
    requires user.Valid() && user.Buffered() == [] && AllWellFormed(sent)
    requires Received(events) + rest == Concat(sent) && Fits(Stream([], []), events)
    modifies user.packetBuf, user.packetBuf.buf
    ensures user.Valid() && |extracted| <= |sent|
    ensures forall i :: 0 <= i < |extracted| ==>
              extracted[i].size == |sent[i]| && extracted[i].id == IdField(sent[i])
    ensures user.Buffered() + rest == Concat(sent[|extracted|..])
    ensures |extracted| == |seen| == |Run(Stream([], []), events).extracted|
    ensures WholeUnlessWrapped(old(user.packetBuf.front), sent, seen)
  {
    ghost var packets, front0 := [], user.packetBuf.front;
    extracted, seen, packets := user.Process(events);
    assert sent[0..] == sent;
    FramingIsChunkIndependent(Stream([], []), events, rest, sent);
    PlacesInStream(front0, packets, sent, seen);
  }

  lemma PlacesInStream(front0: int, packets: seq<ByteString>, sent: seq<ByteString>, seen: seq<ByteString>)
    requires Placed(front0, packets, seen) && |packets| <= |sent| && packets == sent[..|packets|]
    ensures WholeUnlessWrapped(front0, sent, seen)
  {
    forall k | 0 <= k < |seen|
      ensures seen[k] == sent[k] <==> Place(front0, sent, k) + |sent[k]| <= DEFAULT_RINGBUFFER_SIZE
    {
      assert packets[..k] == sent[..k];
      SeesAllIff(Place(front0, packets, k), packets[k], seen[k]);
    }
  }

  lemma SeesAllIff(p: int, packet: ByteString, seen: ByteString)
    requires Sees(p, packet, seen)
    ensures seen == packet <==> p + |packet| <= DEFAULT_RINGBUFFER_SIZE
  {
    assert packet[..|packet|] == packet;
  }

  /** A packet of 10000 bytes: the size, then zeros. */
  function LongPacket(): (p: ByteString)
    ensures |p| == 10000 && WellFormed(p)
  {
    [0x10, 0x27] + seq(9998, _ => 0)
  }

  /** The second of two such packets wraps: its handler, on a new connection, finds only the first
      6384 bytes of it at the pointer. */
  method SecondPacketWraps() returns (extracted: seq<PacketInfo>, seen: seq<ByteString>)
    ensures |extracted| == |seen| == 2 && extracted[1].size == 10000
    ensures seen[0] == LongPacket() && seen[1] != LongPacket()
  {
    var p := LongPacket();
    var events := [Receive(p), Poll, Receive(p), Poll];
    var user := new User(0);
    TwoPacketRun(p);
    ghost var sent := [p, p];
    assert |Concat(sent[..0])| == 0 && |Concat(sent[..1])| == |p|;
    extracted, seen := ReceiveStream(user, sent, events, []);
    assert seen[0] == sent[0] && seen[1] != sent[1];
  }

  lemma EventNext(s: Stream, e: Event, es: seq<Event>)
    ensures Run(s, [e] + es) == Run(Step(s, e), es)
    ensures Received([e] + es) == (if e.Receive? then e.chunk else []) + Received(es)
    ensures |s.buffered| <= CAPACITY && Fits(Step(s, e), es) ==> Fits(s, [e] + es)
  {
    assert ([e] + es)[1..] == es;
  }

  /** A packet received whole and polled. */
  lemma OnePacketRun(p: ByteString, out: seq<ByteString>, es: seq<Event>)
    requires WellFormed(p)
    ensures Run(Stream([], out), [Receive(p), Poll] + es) == Run(Stream([], out + [p]), es)
    ensures Received([Receive(p), Poll] + es) == p + Received(es)
    ensures Fits(Stream([], out + [p]), es) ==> Fits(Stream([], out), [Receive(p), Poll] + es)
  {
    assert [Receive(p), Poll] + es == [Receive(p)] + ([Poll] + es);
    assert [] + p == p && p[..|p|] == p && p[|p|..] == [];
    EventNext(Stream([], out), Receive(p), [Poll] + es);
    EventNext(Stream(p, out), Poll, es);
  }

  lemma TwoPacketRun(p: ByteString)
    requires WellFormed(p)
    ensures var events := [Receive(p), Poll, Receive(p), Poll];
            && Fits(Stream([], []), events) && Run(Stream([], []), events) == Stream([], [p, p])
            && Received(events) + [] == Concat([p, p])
    ensures |Concat([p, p][..0])| == 0 && |Concat([p, p][..1])| == |p|
  {
    var turn := [Receive(p), Poll];
    assert [Receive(p), Poll, Receive(p), Poll] == turn + turn && turn + [] == turn;
    OnePacketRun(p, [], turn);
    OnePacketRun(p, [p], []);
    assert [] + [p] == [p] && [p] + [p] == [p, p];
    ConcatSnoc([], p);
    ConcatSnoc([p], p);
    assert [p, p][..1] == [p];
  }

  /** The packet thread requeues a session until `CompleteProcess` reports an empty buffer or no
      packet is complete. On a well-formed stream that ends, with at most part of one packet left. */
  method Drain(user: User, ghost done: seq<ByteString>, ghost rest: ByteString, ghost sent: seq<ByteString>)
    returns (extracted: seq<PacketInfo>, ghost all: seq<ByteString>)
    requires user.Valid() && AllWellFormed(sent) && Tracks(Stream(user.Buffered(), done), rest, sent)
    modifies user.packetBuf`front
    ensures user.Valid() && Tracks(Stream(user.Buffered(), all), rest, sent)
    ensures |done| <= |all| && Describes(extracted, sent[|done|..|all|])
    ensures if |all| == |sent| then user.Buffered() == [] && rest == [] else user.Buffered() < sent[|all|]
  {
    extracted, all := [], done;
    var finished := false;
    ghost var s := Stream(user.Buffered(), all);
    while !finished
      invariant user.Valid() && s == Stream(user.Buffered(), all)
      invariant Tracks(s, rest, sent) && |done| <= |all|
      invariant Describes(extracted, sent[|done|..|all|])
      invariant finished ==> NextPacket(s.buffered).None?
      decreases |s.buffered| + if finished then 0 else 1
    {
      PollTracks(s, rest, sent);
      PolledPacket(s, rest, sent);
      var found, seen;
      found, seen, finished, all := user.PollOnce(all);
      if found.Some? {
        SliceNext(sent, |done|, |s.extracted|);
        extracted := extracted + [found.value];
      }
      s := Step(s, Poll);
    }
    DrainedLeavesPartOfOnePacket(s, rest, sent);
  }

  lemma SliceNext<T>(s: seq<T>, from: nat, to: nat)
    requires from <= to < |s|
    ensures s[from..to + 1] == s[from..to] + [s[to]]
  {
  }

  lemma PolledPacket(s: Stream, rest: ByteString, sent: seq<ByteString>)
    requires AllWellFormed(sent) && Tracks(s, rest, sent)
    ensures match NextPacket(s.buffered)
            case None => true
            case Some(p) => && |s.extracted| < |sent| && p == sent[|s.extracted|] && WellFormed(p)
                            && SizeField(p) == SizeField(s.buffered) && IdField(p) == IdField(s.buffered)
  {
    var todo := sent[|s.extracted|..];
    assert s.buffered <= Concat(todo) by { assert Concat(todo)[..|s.buffered|] == s.buffered; }
    NextOnStream(s.buffered, todo);
    if NextPacket(s.buffered).Some? { PolledHeader(s.buffered); }
  }
}
