/**
 `EngineLayer/SFPacketIOBuffer.cpp`: reading one packet, or only its header, off a byte ring,
 with the head set back when the packet is not there yet; and the receive loop of
 `EngineLayer/SFPacketProtocol.h` over it.
*/
module PacketIOBuffer {
  import opened Bytes
  import opened RingBuffer
  import opened PacketFraming

  datatype Error = NoError | HeaderError | DataError

  /** The room a data buffer must have: as much as the size check lets through. */
  function Room(packetSize: nat): nat
    requires packetSize < 0x10000
  {
    if packetSize < HEADER_SIZE then 0xFFFF else packetSize - HEADER_SIZE
  }

  /** It is as much as a header can say and the size check lets through. */
  lemma RoomIsLeast(packetSize: nat, dataSize: nat)
    requires packetSize < 0x10000
    ensures dataSize <= Room(packetSize) <==> dataSize <= 0xFFFF && dataSize <= DataLimit(packetSize)
  {
  }

  /** Setting the head back gives the bytes back. */
  twostate lemma HeadSetBack(io: IOBuffer)
    requires old(io.Valid()) && io.Valid()
    requires io.buf == old(io.buf) && io.buf[..] == old(io.buf[..])
    requires io.head == old(io.head) && io.tail == old(io.tail)
    ensures io.Contents() == old(io.Contents()) && io.used == old(io.used)
  {
  }

  /**
   Reads one packet. What happens is what the bytes in the buffer begin with; only a whole
   packet is taken off. The two branches for a read that comes out short are never taken: the
   bytes were counted before.
  */
  method GetPacket(io: IOBuffer, header: Header, data: array<byte>, packetSize: nat)
    returns (ok: bool, header': Header, error: Error)
    requires io.Valid() && packetSize < 0x10000 && Room(packetSize) <= data.Length && data != io.buf
    modifies io`head, io`used, data
    ensures io.Valid() && ok == Read(old(io.Contents()), DataLimit(packetSize)).Whole?
    ensures match Read(old(io.Contents()), DataLimit(packetSize))
            case Whole(p) =>
              && header' == p.header && error.NoError?
              && |p.data| <= data.Length && data[..] == p.data + old(data[..])[|p.data|..]
              && io.Contents() == old(io.Contents())[HEADER_SIZE + |p.data|..]
            case Incomplete => error.NoError? && io.Contents() == old(io.Contents()) && data[..] == old(data[..])
            case TooLong(_) => error.DataError? && io.Contents() == old(io.Contents()) && data[..] == old(data[..])
    ensures var s := old(io.Contents());
            if |s| < 12 then header' == header
            else
              && LiesIn(header', s)
              && (ok ==> var n := header'.dataSize; n <= |s| - 12 && n <= data.Length && data[..n] == s[12..12 + n])
  {
    hide Ring, HeaderOf, HeaderBytes, LiesIn;
    error := NoError;
    header' := header;
    var oldHead := io.head;
    if io.used < HEADER_SIZE {
      return false, header', error;
    }
    ghost var s := io.Contents();
    var bytes := new byte[HEADER_SIZE];
    var got := io.GetData(bytes, HEADER_SIZE);
    if got != HEADER_SIZE {
      assert false;
    }
    WholePatch(bytes[..], s[..HEADER_SIZE]);
    header' := HeaderOf(bytes[..]);
    HeaderOfBytes(bytes[..]);
    HeaderLayout(s, header');
    var dataSize := header'.dataSize;
    if dataSize > DataLimit(packetSize) {
      io.SetHead(oldHead);
      HeadSetBack(io);
      return false, header', DataError;
    }
    if io.used < dataSize {
      io.SetHead(oldHead);
      HeadSetBack(io);
      return false, header', error;
    }
    assert s[HEADER_SIZE..][..dataSize] == s[HEADER_SIZE..HEADER_SIZE + dataSize];
    var gotData := io.GetData(data, dataSize);
    if gotData != dataSize {
      assert false;
    }
    assert s[HEADER_SIZE..][dataSize..] == s[HEADER_SIZE + dataSize..];
    return true, header', error;
  }

  /** Reads only the header and sets the head back in any case. */
  method GetHeader(io: IOBuffer, header: Header) returns (ok: bool, header': Header, error: Error)
    requires io.Valid()
    modifies io`head, io`used
    ensures io.Valid() && io.Contents() == old(io.Contents()) && io.head == old(io.head) && error.NoError?
    ensures ok == (|io.Contents()| >= HEADER_SIZE)
    ensures var s := io.Contents();
            if |s| < 12 then header' == header else LiesIn(header', s)
  {
    hide Ring, HeaderOf, LiesIn;
    error := NoError;
    header' := header;
    var oldHead := io.head;
    if io.used < HEADER_SIZE {
      return false, header', error;
    }
    ghost var s := io.Contents();
    var bytes := new byte[HEADER_SIZE];
    var got := io.GetData(bytes, HEADER_SIZE);
    if got != HEADER_SIZE {
      assert false;
    }
    WholePatch(bytes[..], s[..HEADER_SIZE]);
    header' := HeaderOf(bytes[..]);
    HeaderLayout(s, header');
    io.SetHead(oldHead);
    HeadSetBack(io);
    return true, header', error;
  }

  lemma WholePatch(s: seq<byte>, t: seq<byte>)
    requires |s| == |t|
    ensures Patch(s, 0, t) == t
  {
  }

  /**
   A chunk arrives: it is appended, and packets are handed out until none is whole. That the
   append may be refused is not looked at; the chunk is lost then.
  */
  method OnReceive(io: IOBuffer, chunk: seq<byte>, packetSize: nat, packetMaxSize: nat)
    returns (packets: seq<Packet>, ok: bool)
    requires io.Valid() && packetSize < 0x10000 && HEADER_SIZE + Room(packetSize) <= packetMaxSize
    modifies io, io.buf
    ensures io.Valid() && io.buf == old(io.buf)
    ensures var before := old(io.Contents());
            var s := if |before| + |chunk| < io.buf.Length then before + chunk else before;
            Drain(s, DataLimit(packetSize)) == Drained(packets, io.Contents(), ok)
    ensures ok ==> |io.Contents()| < HEADER_SIZE + DataLimit(packetSize)
  {
    hide Ring, Read, Drain, HandedOut;
    var added := io.AppendData(chunk, |chunk|);
    assert chunk[..|chunk|] == chunk && io.Contents() + [] == io.Contents();
    ghost var s := io.Contents();
    ghost var limit := DataLimit(packetSize);
    packets := [];
    NothingHandedOut(s, limit);
    var error := NoError;
    while true
      modifies io`head, io`used
      invariant io.Valid() && HandedOut(s, packets, io.Contents(), limit)
      decreases io.used
    {
      var data := new byte[packetMaxSize - HEADER_SIZE];
      ghost var t := io.Contents();
      OneMoreHandedOut(s, packets, t, limit);
      var got: bool, header: Header;
      got, header, error := GetPacket(io, NO_HEADER, data, packetSize);
      if !got {
        break;
      }
      packets := packets + [Packet(header, data[..header.dataSize])];
    }
    ok := error.NoError?;
    LittleIsLeft(s, limit);
  }

  /** In the middle of the loop: `packets` of what was buffered are handed out, `t` is still to be read. */
  ghost predicate HandedOut(s: seq<byte>, packets: seq<Packet>, t: seq<byte>, limit: nat) {
    var d := Drain(t, limit);
    Drain(s, limit) == Drained(packets + d.packets, d.rest, d.ok)
  }

  lemma NothingHandedOut(s: seq<byte>, limit: nat)
    ensures HandedOut(s, [], s, limit)
  {
    hide Drain;
    assert [] + Drain(s, limit).packets == Drain(s, limit).packets;
  }

  /** One turn of the loop. */
  lemma OneMoreHandedOut(s: seq<byte>, packets: seq<Packet>, t: seq<byte>, limit: nat)
    requires HandedOut(s, packets, t, limit)
    ensures match Read(t, limit)
            case Whole(p) =>
              && HEADER_SIZE + |p.data| <= |t| && p.header.dataSize == |p.data|
              && HandedOut(s, packets + [p], t[HEADER_SIZE + |p.data|..], limit)
            case Incomplete => Drain(s, limit) == Drained(packets, t, true)
            case TooLong(_) => Drain(s, limit) == Drained(packets, t, false)
  {
    DrainStep(t, limit);
    hide Drain, Read;
    if Read(t, limit).Whole? {
      var p := Read(t, limit).packet;
      var d := Drain(t[HEADER_SIZE + |p.data|..], limit);
      assert packets + ([p] + d.packets) == packets + [p] + d.packets;
    } else {
      assert packets + [] == packets;
    }
  }

  lemma DrainStep(s: seq<byte>, limit: nat)
    ensures match Read(s, limit)
            case Whole(p) =>
              && HEADER_SIZE + |p.data| <= |s| && p.header.dataSize == |p.data|
              && var d := Drain(s[HEADER_SIZE + |p.data|..], limit);
                 Drain(s, limit) == Drained([p] + d.packets, d.rest, d.ok)
            case Incomplete => Drain(s, limit) == Drained([], s, true)
            case TooLong(_) => Drain(s, limit) == Drained([], s, false)
  {
  }
}
