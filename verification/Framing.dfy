/** Packet framing on top of the ring buffer: what `User::GetPacketData`, `CompleteProcess` and
    `EnqueuePacketData` (Content/user.cpp) make of a byte stream cut into arbitrary chunks. */
module Framing {
  import opened Bytes
  import RingBuffers

  // PACKET_HEADER, packed: uint16 size_, uint16 id_, uint8 type_, little-endian.
  const HEADER := 5
  const CAPACITY := RingBuffers.DEFAULT_RINGBUFFER_SIZE - 1

  function LittleEndian16(lo: Byte, hi: Byte): (n: nat)
    ensures n < 0x1_0000
  {
    lo as nat + 256 * hi as nat
  }

  function SizeField(header: ByteString): nat
    requires |header| >= HEADER
  {
    LittleEndian16(header[0], header[1])
  }

  function IdField(header: ByteString): nat
    requires |header| >= HEADER
  {
    LittleEndian16(header[2], header[3])
  }

  /** A packet whose `size_` is its true length and which fits the ring buffer. */
  ghost predicate WellFormed(p: ByteString) {
    HEADER <= |p| <= CAPACITY && SizeField(p) == |p|
  }

  ghost predicate AllWellFormed(ps: seq<ByteString>) {
    forall i :: 0 <= i < |ps| ==> WellFormed(ps[i])
  }

  /** Bytes 0 and 1 are the size and bytes 2 and 3 the id, the lower eight bits first. */
  lemma HeaderFields(p: ByteString)
    requires |p| >= HEADER
    ensures p[0] as nat == SizeField(p) % 256 && p[1] as nat == SizeField(p) / 256
    ensures p[2] as nat == IdField(p) % 256 && p[3] as nat == IdField(p) / 256
  {
    TwoBytes(p[0], p[1]);
    TwoBytes(p[2], p[3]);
  }

  lemma TwoBytes(lo: Byte, hi: Byte)
    ensures LittleEndian16(lo, hi) % 256 == lo as nat && LittleEndian16(lo, hi) / 256 == hi as nat
  {}

  ghost function Concat(ps: seq<ByteString>): ByteString {
    if ps == [] then [] else ps[0] + Concat(ps[1..])
  }

  /** The packet the extractor sees at the front of the buffered bytes, if any. */
  ghost function NextPacket(c: ByteString): Option<ByteString> {
    if |c| < HEADER || |c| < SizeField(c) then None else Some(c[..SizeField(c)])
  }

  /** What one session's buffer goes through: received chunks, and polls by the packet thread
      (one `GetPacketData`, then `CompleteProcess` with the size it returned). */
  datatype Event = Receive(chunk: ByteString) | Poll
  datatype Stream = Stream(buffered: ByteString, extracted: seq<ByteString>)

  ghost function Step(s: Stream, e: Event): Stream {
    match e
    case Receive(chunk) => s.(buffered := s.buffered + chunk)
    case Poll =>
      match NextPacket(s.buffered)
      case None => s
      case Some(p) => Stream(s.buffered[|p|..], s.extracted + [p])
  }

  ghost function Run(s: Stream, es: seq<Event>): Stream
    decreases |es|
  {
    if es == [] then s else Run(Step(s, es[0]), es[1..])
  }

  ghost function Received(es: seq<Event>): ByteString {
    if es == [] then []
    else (if es[0].Receive? then es[0].chunk else []) + Received(es[1..])
  }

  lemma {:induction false} ConcatSplit(ps: seq<ByteString>, k: nat)
    requires k <= |ps|
    ensures Concat(ps) == Concat(ps[..k]) + Concat(ps[k..])
  {
    if k == 0 {
      assert ps[k..] == ps;
    } else {
      ConcatSplit(ps[1..], k - 1);
      assert ps[..k][1..] == ps[1..][..k - 1] && ps[1..][k - 1..] == ps[k..];
    }
  }

  lemma ConcatSnoc(ps: seq<ByteString>, p: ByteString)
    ensures Concat(ps + [p]) == Concat(ps) + p
  {
    ConcatSplit(ps + [p], |ps|);
    assert (ps + [p])[|ps|..] == [p];
    assert Concat([p]) == p + Concat([]);
  }

  /** On a prefix of a well-formed stream the extractor finds exactly the first packet sent,
      and finds it as soon as all of it is there. */
  lemma NextOnStream(c: ByteString, ps: seq<ByteString>)
    requires AllWellFormed(ps) && c <= Concat(ps)
    ensures NextPacket(c) == if ps != [] && |ps[0]| <= |c| then Some(ps[0]) else None
  {
    if ps != [] {
      var p := ps[0];
      assert Concat(ps) == p + Concat(ps[1..]);
      if HEADER <= |c| {
        assert c[..4] == Concat(ps)[..4] == p[..4];
        assert c[0] == c[..4][0] == p[..4][0] && c[1] == c[..4][1] == p[..4][1];
        assert SizeField(c) == |p|;
      }
      if |p| <= |c| {
        assert c[..|p|] == Concat(ps)[..|p|] == p;
      }
    }
  }

  /** The bytes sent are always the packets extracted, then the bytes buffered, then the rest. */
  ghost predicate Tracks(s: Stream, rest: ByteString, sent: seq<ByteString>) {
    && |s.extracted| <= |sent|
    && s.extracted == sent[..|s.extracted|]
    && s.buffered + rest == Concat(sent[|s.extracted|..])
  }

  lemma PollTracks(s: Stream, rest: ByteString, sent: seq<ByteString>)
    requires AllWellFormed(sent) && Tracks(s, rest, sent)
    ensures Tracks(Step(s, Poll), rest, sent)
  {
    var k := |s.extracted|;
    var todo := sent[k..];
    assert s.buffered <= Concat(todo) by { assert Concat(todo)[..|s.buffered|] == s.buffered; }
    NextOnStream(s.buffered, todo);
    if todo != [] && |todo[0]| <= |s.buffered| {
      var p := todo[0];
      assert todo[1..] == sent[k + 1..] && p == sent[k];
      assert s.buffered[|p|..] + rest == (s.buffered + rest)[|p|..] == Concat(todo)[|p|..] == Concat(todo[1..]);
      assert s.extracted + [p] == sent[..k + 1];
    }
  }

  /** Chunk-independent framing: however the stream is cut and whenever it is polled, the packets
      extracted are a prefix of those sent and nothing is lost, duplicated or reordered. */
  lemma {:induction false} FramingIsChunkIndependent(s: Stream, es: seq<Event>, rest: ByteString, sent: seq<ByteString>)
    requires AllWellFormed(sent) && Tracks(s, Received(es) + rest, sent)
    ensures Tracks(Run(s, es), rest, sent)
    decreases |es|
  {
    if es == [] {
      assert [] + rest == rest;
    } else {
      var after := Received(es[1..]) + rest;
      match es[0] {
        case Receive(chunk) =>
          assert s.buffered + (Received(es) + rest) == s.buffered + chunk + after;
        case Poll =>
          assert Received(es) + rest == after;
          PollTracks(s, after, sent);
      }
      FramingIsChunkIndependent(Step(s, es[0]), es[1..], rest, sent);
    }
  }

  /** Once a poll finds nothing, what is left is a proper prefix of the next packet sent. */
  lemma DrainedLeavesPartOfOnePacket(s: Stream, rest: ByteString, sent: seq<ByteString>)
    requires AllWellFormed(sent) && Tracks(s, rest, sent) && NextPacket(s.buffered).None?
    ensures var k := |s.extracted|;
            if k == |sent| then s.buffered == [] && rest == []
            else s.buffered < sent[k]
  {
    var k := |s.extracted|;
    var todo := sent[k..];
    assert s.buffered <= Concat(todo) by { assert Concat(todo)[..|s.buffered|] == s.buffered; }
    NextOnStream(s.buffered, todo);
    if k < |sent| {
      assert todo[0] == sent[k] && Concat(todo)[..|sent[k]|] == sent[k];
      assert s.buffered == Concat(todo)[..|s.buffered|] == sent[k][..|s.buffered|];
    }
  }

  /** Two ways of cutting the same bytes, both drained, extract the same packets and leave the same rest. */
  lemma DrainedRunsAgree(sent: seq<ByteString>, es1: seq<Event>, es2: seq<Event>, rest: ByteString)
    requires AllWellFormed(sent)
    requires Received(es1) == Received(es2) && Received(es1) + rest == Concat(sent)
    requires NextPacket(Run(Stream([], []), es1).buffered).None?
    requires NextPacket(Run(Stream([], []), es2).buffered).None?
    ensures Run(Stream([], []), es1) == Run(Stream([], []), es2)
  {
    var s1, s2 := Run(Stream([], []), es1), Run(Stream([], []), es2);
    assert sent[0..] == sent;
    FramingIsChunkIndependent(Stream([], []), es1, rest, sent);
    FramingIsChunkIndependent(Stream([], []), es2, rest, sent);
    DrainedExtractsMost(s1, s2, rest, sent);
    DrainedExtractsMost(s2, s1, rest, sent);
    var b := Concat(sent[|s1.extracted|..]);
    assert s1.buffered == b[..|b| - |rest|] == s2.buffered;
  }

  lemma DrainedExtractsMost(s1: Stream, s2: Stream, rest: ByteString, sent: seq<ByteString>)
    requires AllWellFormed(sent) && Tracks(s1, rest, sent) && Tracks(s2, rest, sent)
    requires NextPacket(s1.buffered).None?
    ensures |s1.extracted| >= |s2.extracted|
  {
    var k1, k2 := |s1.extracted|, |s2.extracted|;
    if k1 < k2 {
      ConcatSplit(sent[k1..], k2 - k1);
      assert sent[k1..][k2 - k1..] == sent[k2..];
      assert sent[k1..][..k2 - k1] == [sent[k1]] + sent[k1 + 1..k2];
      assert Concat([sent[k1]] + sent[k1 + 1..k2]) == sent[k1] + Concat(sent[k1 + 1..k2]);
      assert |s1.buffered| >= |sent[k1]|;
      DrainedLeavesPartOfOnePacket(s1, rest, sent);
    }
  }

  /** A header with `size_` zero is extracted for ever: a poll then removes nothing. Every other
      packet found shortens the buffer. */
  lemma PollMakesProgressIffSizeNotZero(c: ByteString, out: seq<ByteString>)
    requires NextPacket(c).Some?
    ensures |Step(Stream(c, out), Poll).buffered| < |c| <==> SizeField(c) != 0
  {}
}
