/**
 What the byte stream of a connection means: packets behind twelve-byte headers
 (`EngineLayer/SFStructure.h`), read off in the way of `EngineLayer/SFPacketIOBuffer.cpp`.
*/
module PacketFraming {
  import opened Bytes

  const HEADER_SIZE := 12

  datatype Header = Header(packetID: nat, packetOption: nat, dataCRC: nat, dataSize: nat)

  const NO_HEADER := Header(0, 0, 0, 0)

  /** The fields fit their unsigned types of two, four, four and two bytes. */
  predicate Fits(h: Header) {
    h.packetID < 0x10000 && h.packetOption < 0x1_0000_0000 && h.dataCRC < 0x1_0000_0000 && h.dataSize < 0x10000
  }

  /** The `n` lowest bytes of a number, lowest first. */
  function LittleEndian(d: nat, n: nat): (s: seq<byte>)
    ensures |s| == n
  {
    if n == 0 then [] else [LowByte(d)] + LittleEndian(d / 256, n - 1)
  }

  /** The number whose bytes these are, lowest first. */
  function Value(s: seq<byte>): nat {
    if s == [] then 0 else s[0] + 256 * Value(s[1..])
  }

  /** How many numbers `n` bytes can hold. */
  function Range(n: nat): nat {
    if n == 0 then 1 else 256 * Range(n - 1)
  }

  /** The packed structure in memory. */
  function HeaderBytes(h: Header): (s: seq<byte>)
    ensures |s| == HEADER_SIZE
  {
    LittleEndian(h.packetID, 2) + LittleEndian(h.packetOption, 4) + LittleEndian(h.dataCRC, 4)
    + LittleEndian(h.dataSize, 2)
  }

  function HeaderOf(s: seq<byte>): (h: Header)
    requires |s| == HEADER_SIZE
  {
    Header(Value(s[..2]), Value(s[2..6]), Value(s[6..10]), Value(s[10..]))
  }

  lemma Split256(q: nat, w: nat)
    requires w < 256
    ensures (w + 256 * q) / 256 == q && (w + 256 * q) % 256 == w
  {
  }

  /** A number that fits its bytes can be read off them. */
  lemma {:induction false} ValueOfBytes(d: nat, n: nat)
    requires d < Range(n)
    ensures Value(LittleEndian(d, n)) == d
  {
    if n > 0 {
      ValueOfBytes(d / 256, n - 1);
      assert LittleEndian(d, n)[1..] == LittleEndian(d / 256, n - 1);
    }
  }

  /** Any bytes are those of the number they are read as, and it fits them. */
  lemma {:induction false} BytesOfValue(s: seq<byte>)
    ensures Value(s) < Range(|s|) && LittleEndian(Value(s), |s|) == s
  {
    if s != [] {
      BytesOfValue(s[1..]);
      Split256(Value(s[1..]), s[0]);
      assert [s[0]] + s[1..] == s;
    }
  }

  lemma Ranges()
    ensures Range(2) == 0x10000 && Range(4) == 0x1_0000_0000
  {
    assert Range(2) == 256 * Range(1) && Range(4) == 256 * Range(3);
  }

  lemma TwoBytes(s: seq<byte>)
    requires |s| == 2
    ensures Value(s) == s[0] as int + 256 * s[1] as int
  {
    assert Value(s[1..]) == s[1] + 256 * Value(s[1..][1..]);
  }

  lemma FourBytes(s: seq<byte>)
    requires |s| == 4
    ensures Value(s) == s[0] as int + 256 * s[1] as int + 65536 * s[2] as int + 16777216 * s[3] as int
  {
    assert s[2..] == s[1..][1..];
    TwoBytes(s[2..]);
    assert Value(s[1..]) == s[1] + 256 * Value(s[2..]);
  }

  /** A header can be read off its bytes. */
  lemma HeaderRoundTrip(h: Header)
    requires Fits(h)
    ensures HeaderOf(HeaderBytes(h)) == h
  {
    Ranges();
    ValueOfBytes(h.packetID, 2);
    ValueOfBytes(h.packetOption, 4);
    ValueOfBytes(h.dataCRC, 4);
    ValueOfBytes(h.dataSize, 2);
    hide LittleEndian, Value, Range;
    var s := HeaderBytes(h);
    assert s[..2] == LittleEndian(h.packetID, 2) && s[2..6] == LittleEndian(h.packetOption, 4);
    assert s[6..10] == LittleEndian(h.dataCRC, 4) && s[10..] == LittleEndian(h.dataSize, 2);
  }

  /** Any twelve bytes are the header they are read as. */
  lemma HeaderOfBytes(s: seq<byte>)
    requires |s| == HEADER_SIZE
    ensures Fits(HeaderOf(s)) && HeaderBytes(HeaderOf(s)) == s
  {
    Ranges();
    BytesOfValue(s[..2]);
    BytesOfValue(s[2..6]);
    BytesOfValue(s[6..10]);
    BytesOfValue(s[10..]);
    hide LittleEndian, Value, Range;
    assert s[..2] + s[2..6] + s[6..10] + s[10..] == s;
  }

  /**
   Where the fields lie in memory: the identifier in bytes 0 and 1, the option in 2 to 5, the
   checksum in 6 to 9, the data size in 10 and 11, lowest byte first.
  */
  predicate LiesIn(h: Header, s: seq<byte>) {
    && |s| >= 12
    && h.packetID == s[0] as int + 256 * s[1] as int
    && h.packetOption == s[2] as int + 256 * s[3] as int + 65536 * s[4] as int + 16777216 * s[5] as int
    && h.dataCRC == s[6] as int + 256 * s[7] as int + 65536 * s[8] as int + 16777216 * s[9] as int
    && h.dataSize == s[10] as int + 256 * s[11] as int
  }

  /** What is read from twelve bytes lies in them, and nothing else does. */
  lemma HeaderLayout(s: seq<byte>, h: Header)
    requires |s| >= HEADER_SIZE
    ensures LiesIn(h, s) <==> h == HeaderOf(s[..HEADER_SIZE])
  {
    hide Value;
    var t := s[..HEADER_SIZE];
    TwoBytes(t[..2]);
    FourBytes(t[2..6]);
    FourBytes(t[6..10]);
    TwoBytes(t[10..]);
  }

  /** The bytes of a header that fits are those it lies in. */
  lemma HeaderLiesInItsBytes(h: Header, s: seq<byte>)
    requires Fits(h) && |s| == HEADER_SIZE
    ensures s == HeaderBytes(h) <==> LiesIn(h, s)
  {
    HeaderRoundTrip(h);
    HeaderOfBytes(s);
    hide HeaderBytes, HeaderOf;
    assert s[..HEADER_SIZE] == s;
    HeaderLayout(s, h);
    hide LiesIn;
  }

  datatype Packet = Packet(header: Header, data: seq<byte>)

  /** The most data bytes a packet may have. The subtraction is unsigned: below the header size it wraps around. */
  function DataLimit(packetSize: nat): nat
    requires packetSize < 0x10000
  {
    if packetSize < HEADER_SIZE then 0x1_0000_0000 + packetSize - HEADER_SIZE else packetSize - HEADER_SIZE
  }

  lemma DataLimits()
    ensures DataLimit(12) == 0 && DataLimit(4096) == 4084 && DataLimit(11) == 0xFFFF_FFFF && DataLimit(0) == 0xFFFF_FFF4
  {
  }

  predicate Sendable(p: Packet, limit: nat) {
    Fits(p.header) && p.header.dataSize == |p.data| && |p.data| <= limit
  }

  function Frame(p: Packet): (s: seq<byte>)
    ensures |s| == HEADER_SIZE + |p.data|
  {
    HeaderBytes(p.header) + p.data
  }

  /** The packets one behind the other. */
  function Wire(ps: seq<Packet>): seq<byte> {
    if ps == [] then [] else Frame(ps[0]) + Wire(ps[1..])
  }

  /** A header, its data and what follows. */
  lemma ReadBehindHeader(h: Header, s: seq<byte>, data: seq<byte>, rest: seq<byte>, limit: nat)
    requires |s| == 12 && LiesIn(h, s) && h.dataSize == |data| <= limit
    ensures Read(s + data + rest, limit) == Whole(Packet(h, data))
  {
    var t := s + data + rest;
    assert t[..12] == s && t[12..12 + |data|] == data && s[..12] == s;
    HeaderLayout(s, h);
    hide HeaderOf, LiesIn;
  }

  /** "hello" behind a header with another value in every field, and the next byte of the stream. */
  lemma ReadExample()
    ensures var header := [1, 0] + [2, 3, 4, 5] + [6, 7, 8, 9] + [5, 0];
            Read(header + [104, 101, 108, 108, 111] + [77], 100) ==
            Whole(Packet(Header(1, 0x0504_0302, 0x0908_0706, 5), [104, 101, 108, 108, 111]))
  {
    var s: seq<byte> := [1, 0] + [2, 3, 4, 5] + [6, 7, 8, 9] + [5, 0];
    var h := Header(1, 0x0504_0302, 0x0908_0706, 5);
    assert LiesIn(h, s);
    hide LiesIn, Read;
    ReadBehindHeader(h, s, [104, 101, 108, 108, 111], [77], 100);
  }

  /** What the bytes in the buffer begin with. */
  datatype Reading = Incomplete | TooLong(header: Header) | Whole(packet: Packet)

  function Read(s: seq<byte>, limit: nat): Reading {
    if |s| < HEADER_SIZE then Incomplete
    else
      var h := HeaderOf(s[..HEADER_SIZE]);
      if h.dataSize > limit then TooLong(h)
      else if |s| - HEADER_SIZE < h.dataSize then Incomplete
      else Whole(Packet(h, s[HEADER_SIZE..HEADER_SIZE + h.dataSize]))
  }

  /** Bytes are read as a whole packet exactly when they begin with the frame of a packet that may be sent. */
  lemma ReadIffFramed(s: seq<byte>, p: Packet, limit: nat)
    ensures Read(s, limit) == Whole(p) <==> Sendable(p, limit) && Frame(p) <= s
  {
    hide HeaderOf, HeaderBytes;
    if Read(s, limit) == Whole(p) {
      HeaderOfBytes(s[..HEADER_SIZE]);
      assert Frame(p) == s[..HEADER_SIZE] + s[HEADER_SIZE..HEADER_SIZE + p.header.dataSize];
    }
    if Sendable(p, limit) && Frame(p) <= s {
      HeaderRoundTrip(p.header);
      assert Frame(p)[..HEADER_SIZE] == HeaderBytes(p.header) == s[..HEADER_SIZE];
      assert Frame(p)[HEADER_SIZE..] == p.data;
      assert s[HEADER_SIZE..HEADER_SIZE + |p.data|] == p.data;
    }
  }

  /**
   The size check does what it is for exactly if the packet size covers a header: only then is
   no packet let through that is longer than the packet size.
  */
  lemma LimitHoldsIff(packetSize: nat)
    requires packetSize < 0x10000
    ensures packetSize >= HEADER_SIZE <==>
            forall s, p :: Read(s, DataLimit(packetSize)) == Whole(p) ==> HEADER_SIZE + |p.data| <= packetSize
  {
    hide Frame;
    var limit := DataLimit(packetSize);
    forall s, p | Read(s, limit) == Whole(p)
      ensures Sendable(p, limit)
    {
      ReadIffFramed(s, p, limit);
    }
    if packetSize < HEADER_SIZE {
      var p := Packet(NO_HEADER, []);
      ReadIffFramed(Frame(p), p, limit);
      assert Read(Frame(p), limit) == Whole(p) && HEADER_SIZE + |p.data| > packetSize;
    }
  }

  /** A frame that has not arrived completely is waited for. */
  lemma PartOfFrame(s: seq<byte>, p: Packet, limit: nat)
    requires Sendable(p, limit) && s < Frame(p)
    ensures Read(s, limit) == Incomplete
  {
    hide HeaderOf, HeaderBytes;
    if |s| >= HEADER_SIZE {
      HeaderRoundTrip(p.header);
      assert Frame(p)[..HEADER_SIZE] == HeaderBytes(p.header) == s[..HEADER_SIZE];
    }
  }

  /** More bytes behind do not change what has been read. */
  lemma ReadStable(s: seq<byte>, t: seq<byte>, limit: nat)
    requires !Read(s, limit).Incomplete?
    ensures Read(s + t, limit) == Read(s, limit)
  {
    hide HeaderOf;
    assert (s + t)[..HEADER_SIZE] == s[..HEADER_SIZE];
    var h := HeaderOf(s[..HEADER_SIZE]);
    if h.dataSize <= limit {
      assert (s + t)[HEADER_SIZE..HEADER_SIZE + h.dataSize] == s[HEADER_SIZE..HEADER_SIZE + h.dataSize];
    }
  }

  // ---------- Reading as many packets as there are ----------

  datatype Drained = Drained(packets: seq<Packet>, rest: seq<byte>, ok: bool)

  function Drain(s: seq<byte>, limit: nat): (d: Drained)
    decreases |s|
  {
    match Read(s, limit)
    case Whole(p) =>
      var d := Drain(s[HEADER_SIZE + |p.data|..], limit);
      Drained([p] + d.packets, d.rest, d.ok)
    case Incomplete => Drained([], s, true)
    case TooLong(_) => Drained([], s, false)
  }

  /**
   How a stream is cut into chunks makes no difference: the packets of two chunks are those of
   the first, then those of what was left over with the second behind it. So it is for any
   bytes; after a packet that is too long nothing is ever read again.
  */
  lemma {:induction false} CutAnywhere(s: seq<byte>, t: seq<byte>, limit: nat)
    ensures
      var d := Drain(s, limit);
      var e := Drain(d.rest + t, limit);
      Drain(s + t, limit) == Drained(d.packets + e.packets, e.rest, e.ok) && (!d.ok ==> !e.ok && e.packets == [])
    decreases |s|
  {
    hide Read;
    match Read(s, limit)
    case Whole(p) =>
      WholeIsThere(s, p, limit);
      ReadStable(s, t, limit);
      var k := HEADER_SIZE + |p.data|;
      assert (s + t)[k..] == s[k..] + t;
      CutAnywhere(s[k..], t, limit);
      var d := Drain(s[k..], limit);
      var e := Drain(d.rest + t, limit);
      assert [p] + (d.packets + e.packets) == [p] + d.packets + e.packets;
    case Incomplete =>
    case TooLong(_) =>
      ReadStable(s, t, limit);
  }

  lemma WholeIsThere(s: seq<byte>, p: Packet, limit: nat)
    requires Read(s, limit) == Whole(p)
    ensures HEADER_SIZE + |p.data| <= |s|
  {
  }

  function Concat(chunks: seq<seq<byte>>): seq<byte> {
    if chunks == [] then [] else Concat(chunks[..|chunks| - 1]) + chunks[|chunks| - 1]
  }

  /** All that one receive after the other hands out, what is left over, and whether the last one was free of errors. */
  function ReceiveAll(chunks: seq<seq<byte>>, limit: nat): Drained {
    if chunks == [] then Drained([], [], true)
    else
      var d := ReceiveAll(chunks[..|chunks| - 1], limit);
      var e := Drain(d.rest + chunks[|chunks| - 1], limit);
      Drained(d.packets + e.packets, e.rest, e.ok)
  }

  /** Any number of receives amounts to one receive of everything. */
  lemma {:induction false} ChunksDoNotMatter(chunks: seq<seq<byte>>, limit: nat)
    ensures ReceiveAll(chunks, limit) == Drain(Concat(chunks), limit)
  {
    if chunks != [] {
      hide Drain;
      var front := chunks[..|chunks| - 1];
      ChunksDoNotMatter(front, limit);
      CutAnywhere(Concat(front), chunks[|chunks| - 1], limit);
    }
  }

  // ---------- When no chunk is ever refused ----------

  /** What is left when nothing whole is left is less than one packet of the largest size. */
  lemma {:induction false} LittleIsLeft(s: seq<byte>, limit: nat)
    ensures var d := Drain(s, limit); d.ok ==> Read(d.rest, limit) == Incomplete && |d.rest| < HEADER_SIZE + limit
    decreases |s|
  {
    hide HeaderOf;
    if Read(s, limit).Whole? {
      LittleIsLeft(s[HEADER_SIZE + |Read(s, limit).packet.data|..], limit);
    }
  }

  /** The longest beginning of a packet that is waited for: a frame of the largest size but for its last byte. */
  lemma MuchMayBeLeft(limit: nat) returns (s: seq<byte>)
    requires limit < 0x10000
    ensures |s| == HEADER_SIZE + limit - 1 && Drain(s, limit) == Drained([], s, true)
  {
    var p := Packet(Header(0, 0, 0, limit), Zeros(limit));
    var f := Frame(p);
    s := f[..|f| - 1];
    hide Read, Frame;
    assert s < f;
    PartOfFrame(s, p, limit);
  }

  /**
   For a packet size that covers a header, chunks of `n` bytes always fit what is left after a
   receive without an error, if and only if the block has room for them besides one packet.
  */
  lemma ChunksFitIff(n: nat, size: nat, packetSize: nat)
    requires HEADER_SIZE <= packetSize < 0x10000
    ensures packetSize + n <= size <==>
            forall s :: Drain(s, DataLimit(packetSize)).ok ==> |Drain(s, DataLimit(packetSize)).rest| + n < size
  {
    hide Drain, Read;
    var limit := DataLimit(packetSize);
    forall s | Drain(s, limit).ok
      ensures |Drain(s, limit).rest| < packetSize
    {
      LittleIsLeft(s, limit);
    }
    var s := MuchMayBeLeft(limit);
    assert Drain(s, limit).ok && |Drain(s, limit).rest| == packetSize - 1;
  }

  predicate AllSendable(ps: seq<Packet>, limit: nat) {
    forall i :: 0 <= i < |ps| ==> Sendable(ps[i], limit)
  }

  /** What a receiver gets when packets were sent and part of the next one has arrived. */
  lemma {:induction false} DrainWire(ps: seq<Packet>, tail: seq<byte>, limit: nat)
    requires AllSendable(ps, limit) && Read(tail, limit) == Incomplete
    ensures Drain(Wire(ps) + tail, limit) == Drained(ps, tail, true)
  {
    hide Read, Frame;
    if ps == [] {
      assert Wire(ps) + tail == tail;
    } else {
      var s := Wire(ps) + tail;
      var k := HEADER_SIZE + |ps[0].data|;
      assert s == Frame(ps[0]) + (Wire(ps[1..]) + tail);
      assert s[..k] == Frame(ps[0]) && s[k..] == Wire(ps[1..]) + tail;
      ReadIffFramed(s, ps[0], limit);
      DrainWire(ps[1..], tail, limit);
      assert ps == [ps[0]] + ps[1..];
    }
  }

  /** The wire determines the packets. */
  lemma WireInjective(ps: seq<Packet>, qs: seq<Packet>, limit: nat)
    requires AllSendable(ps, limit) && AllSendable(qs, limit) && Wire(ps) == Wire(qs)
    ensures ps == qs
  {
    DrainWire(ps, [], limit);
    DrainWire(qs, [], limit);
    assert Wire(ps) + [] == Wire(ps) && Wire(qs) + [] == Wire(qs);
  }

  // ---------- Any interleaving of appending and reading ----------

  datatype Event = Append(chunk: seq<byte>) | Get

  /** The bytes still in the buffer and the packets handed out; an append that would fill the block is refused. */
  datatype Receiver = Receiver(buffered: seq<byte>, delivered: seq<Packet>)

  function Step(r: Receiver, e: Event, size: nat, limit: nat): Receiver {
    match e
    case Append(chunk) =>
      if |r.buffered| + |chunk| >= size then r else r.(buffered := r.buffered + chunk)
    case Get =>
      match Read(r.buffered, limit)
      case Whole(p) => Receiver(r.buffered[HEADER_SIZE + |p.data|..], r.delivered + [p])
      case _ => r
  }

  function Run(es: seq<Event>, size: nat, limit: nat): Receiver {
    if es == [] then Receiver([], []) else Step(Run(es[..|es| - 1], size, limit), es[|es| - 1], size, limit)
  }

  /** The bytes the appends were given. */
  function Arrived(es: seq<Event>): seq<byte> {
    if es == [] then []
    else Arrived(es[..|es| - 1]) + if es[|es| - 1].Append? then es[|es| - 1].chunk else []
  }

  /** No append is refused. */
  ghost predicate Accepted(es: seq<Event>, size: nat, limit: nat) {
    forall i {:trigger es[i]} :: 0 <= i < |es| && es[i].Append? ==>
      |Run(es[..i], size, limit).buffered| + |es[i].chunk| < size
  }

  lemma AcceptedPrefix(es: seq<Event>, size: nat, limit: nat)
    requires es != [] && Accepted(es, size, limit)
    ensures Accepted(es[..|es| - 1], size, limit)
    ensures var last := es[|es| - 1]; last.Append? ==> |Run(es[..|es| - 1], size, limit).buffered| + |last.chunk| < size
  {
    var front := es[..|es| - 1];
    forall i | 0 <= i < |front| && front[i].Append?
      ensures |Run(front[..i], size, limit).buffered| + |front[i].chunk| < size
    {
      assert front[..i] == es[..i] && front[i] == es[i];
    }
  }

  lemma {:induction false} WireAppend(ps: seq<Packet>, p: Packet)
    ensures Wire(ps + [p]) == Wire(ps) + Frame(p)
  {
    hide Frame;
    if ps == [] {
      assert ps + [p] == [p] && [p][1..] == [];
      assert Wire([p]) == Frame(p) + Wire([]);
    } else {
      WireAppend(ps[1..], p);
      assert (ps + [p])[1..] == ps[1..] + [p];
    }
  }

  /** When no append is refused, every byte that arrived is in a packet handed out or still buffered, in order. */
  lemma {:induction false} AcceptedIsKept(es: seq<Event>, size: nat, limit: nat)
    requires Accepted(es, size, limit)
    ensures var r := Run(es, size, limit);
            AllSendable(r.delivered, limit) && Wire(r.delivered) + r.buffered == Arrived(es)
  {
    hide Read, Frame, Wire;
    if es == [] {
      EmptyWire();
    } else {
      var front, last := es[..|es| - 1], es[|es| - 1];
      AcceptedPrefix(es, size, limit);
      AcceptedIsKept(front, size, limit);
      var r := Run(front, size, limit);
      if last.Append? {
        assert Wire(r.delivered) + r.buffered + last.chunk == Wire(r.delivered) + (r.buffered + last.chunk);
      } else if Read(r.buffered, limit).Whole? {
        var p := Read(r.buffered, limit).packet;
        ReadIffFramed(r.buffered, p, limit);
        WireAppend(r.delivered, p);
        var rest := r.buffered[HEADER_SIZE + |p.data|..];
        assert r.buffered == Frame(p) + rest;
        assert Wire(r.delivered) + (Frame(p) + rest) == Wire(r.delivered) + Frame(p) + rest;
      }
    }
  }

  /** No more bytes are kept than arrived, and a refused append is missed for good. */
  lemma {:induction false} RefusedIsMissed(es: seq<Event>, size: nat, limit: nat)
    requires size > 0
    ensures var r := Run(es, size, limit);
            && |r.buffered| < size && |Wire(r.delivered)| + |r.buffered| <= |Arrived(es)|
            && (!Accepted(es, size, limit) ==> |Wire(r.delivered)| + |r.buffered| < |Arrived(es)|)
  {
    hide Read, Frame, Wire;
    if es == [] {
      EmptyWire();
    } else {
      var front, last := es[..|es| - 1], es[|es| - 1];
      RefusedIsMissed(front, size, limit);
      RefusedEarlier(es, size, limit);
      hide Accepted;
      var r := Run(front, size, limit);
      if last.Get? && Read(r.buffered, limit).Whole? {
        var p := Read(r.buffered, limit).packet;
        ReadIffFramed(r.buffered, p, limit);
        WireAppend(r.delivered, p);
      }
    }
  }

  /** If no append before the last event is refused, nor the last event, none is. */
  lemma RefusedEarlier(es: seq<Event>, size: nat, limit: nat)
    requires es != []
    ensures var front, last := es[..|es| - 1], es[|es| - 1];
            Accepted(front, size, limit) && (last.Append? ==> |Run(front, size, limit).buffered| + |last.chunk| < size)
            ==> Accepted(es, size, limit)
  {
    hide Run;
    var front := es[..|es| - 1];
    assert forall i :: 0 <= i < |front| ==> front[i] == es[i] && front[..i] == es[..i];
  }

  /**
   Every byte that arrived is in the packets handed out or still in the buffer, in order, if and
   only if no append was refused: a refused chunk is lost silently.
  */
  lemma NothingLost(es: seq<Event>, size: nat, limit: nat)
    requires size > 0
    ensures var r := Run(es, size, limit); Accepted(es, size, limit) <==> Wire(r.delivered) + r.buffered == Arrived(es)
  {
    hide Run, Arrived, Wire, Accepted;
    RefusedIsMissed(es, size, limit);
    if Accepted(es, size, limit) {
      AcceptedIsKept(es, size, limit);
    }
  }

  lemma EmptyWire()
    ensures Wire([]) == []
  {
  }

  lemma {:induction false} DrainSplits(ps: seq<Packet>, rest: seq<byte>, limit: nat)
    requires AllSendable(ps, limit)
    ensures Drain(Wire(ps) + rest, limit).packets == ps + Drain(rest, limit).packets
    ensures Drain(Wire(ps) + rest, limit).ok == Drain(rest, limit).ok
  {
    hide Read;
    assert Read([], limit) == Incomplete by { EmptyIsIncomplete(limit); }
    DrainWire(ps, [], limit);
    assert Wire(ps) + [] == Wire(ps) && [] + rest == rest;
    CutAnywhere(Wire(ps), rest, limit);
  }

  lemma EmptyIsIncomplete(limit: nat)
    ensures Read([], limit) == Incomplete
  {
  }

  /**
   For every list of packets that may be sent, however their bytes are cut into chunks and
   however appending and reading alternate: what was handed out so far is the beginning of what
   was sent, no packet is ever found too long, and when everything has arrived and nothing more
   is read, all of it was handed out.
  */
  lemma DeliveredInOrder(ps: seq<Packet>, es: seq<Event>, size: nat, limit: nat)
    requires AllSendable(ps, limit) && Accepted(es, size, limit) && Arrived(es) <= Wire(ps)
    ensures Run(es, size, limit).delivered <= ps && !Read(Run(es, size, limit).buffered, limit).TooLong?
    ensures Arrived(es) == Wire(ps) && !Read(Run(es, size, limit).buffered, limit).Whole? ==>
              Run(es, size, limit) == Receiver([], ps)
  {
    hide Read, Wire, Drain, Run, Arrived, Accepted, AllSendable;
    var r := Run(es, size, limit);
    AcceptedIsKept(es, size, limit);
    var rest := Wire(ps)[|Arrived(es)|..];
    assert Wire(ps) == Wire(r.delivered) + (r.buffered + rest);
    DrainSplits(r.delivered, r.buffered + rest, limit);
    assert Wire(ps) + [] == Wire(ps);
    EmptyIsIncomplete(limit);
    DrainWire(ps, [], limit);
    if Read(r.buffered, limit).TooLong? {
      ReadStable(r.buffered, rest, limit);
      DrainStops(r.buffered + rest, limit);
    }
    if Arrived(es) == Wire(ps) && !Read(r.buffered, limit).Whole? {
      assert r.buffered + rest == r.buffered;
      DrainStops(r.buffered, limit);
      assert ps == r.delivered;
      assert |r.buffered| == |Wire(ps)| - |Wire(r.delivered)|;
    }
  }

  lemma DrainStops(s: seq<byte>, limit: nat)
    requires !Read(s, limit).Whole?
    ensures Drain(s, limit).packets == [] && Drain(s, limit).ok == !Read(s, limit).TooLong?
  {
  }
}
