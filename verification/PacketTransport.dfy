/**
 A packet's way from one end of a connection to the other: encoded by `EngineLayer/SFPacket.cpp`,
 framed, cut into chunks, read off the byte ring and decoded again.
*/
module PacketTransport {
  import opened Bytes
  import opened Optional
  import Codec = PacketCodec
  import Framing = PacketFraming

  // ---------- Bytes as numbers and as bit vectors ----------

  function ToBytes(s: Codec.Octets): (r: seq<byte>)
    ensures |r| == |s|
  {
    seq(|s|, i requires 0 <= i < |s| => s[i] as int)
  }

  function ToOctets(s: seq<byte>): (r: Codec.Octets)
    ensures |r| == |s|
  {
    seq(|s|, i requires 0 <= i < |s| => s[i] as bv8)
  }

  lemma ByteThereAndBack(b: bv8)
    ensures (b as int) as bv8 == b
  {
  }

  lemma WordThereAndBack(w: bv32)
    ensures 0 <= w as int < 0x1_0000_0000 && (w as int) as bv32 == w
  {
  }

  lemma OctetsThereAndBack(s: Codec.Octets)
    ensures ToOctets(ToBytes(s)) == s
  {
    forall i | 0 <= i < |s|
      ensures ToOctets(ToBytes(s))[i] == s[i]
    {
      ByteThereAndBack(s[i]);
    }
  }

  // ---------- Contents as packets on the wire ----------

  /** The option bits in the header: 1 for the checksum, 2 for compression, 4 for encryption. */
  function OptionCode(o: Codec.Options): nat {
    (if o.dataCrc then 1 else 0) + (if o.compress then 2 else 0) + (if o.encryption then 4 else 0)
  }

  /** The bits are tested one by one; others are not looked at. */
  function OptionOf(n: nat): Codec.Options {
    Codec.Options(n % 2 == 1, n / 4 % 2 == 1, n / 2 % 2 == 1)
  }

  lemma OptionThereAndBack(o: Codec.Options, other: nat)
    ensures OptionOf(OptionCode(o)) == OptionOf(OptionCode(o) + 8 * other) == o && OptionCode(o) < 8
  {
    var n := OptionCode(o);
    assert (n + 8 * other) % 2 == n % 2 && (n + 8 * other) / 2 == n / 2 + 4 * other;
    assert (n + 8 * other) / 4 == n / 4 + 2 * other;
  }

  lemma OptionExamples()
    ensures OptionCode(Codec.Options(dataCrc := true, encryption := false, compress := false)) == 1
    ensures OptionCode(Codec.Options(dataCrc := false, encryption := false, compress := true)) == 2
    ensures OptionCode(Codec.Options(dataCrc := false, encryption := true, compress := false)) == 4
  {
  }

  function ToWire(id: nat, c: Codec.Content): Framing.Packet {
    Framing.Packet(Framing.Header(id, OptionCode(c.options), c.crc as int, |c.data|), ToBytes(c.data))
  }

  function FromWire(p: Framing.Packet): Codec.Content
    requires p.header.dataCRC < 0x1_0000_0000
  {
    Codec.Content(OptionOf(p.header.packetOption), p.header.dataCRC as bv32, ToOctets(p.data))
  }

  /** A header carries all that decoding needs. */
  lemma WireThereAndBack(id: nat, c: Codec.Content, limit: nat)
    requires id < 0x10000 && |c.data| < 0x10000 && |c.data| <= limit
    ensures Framing.Sendable(ToWire(id, c), limit) && FromWire(ToWire(id, c)) == c
  {
    WordThereAndBack(c.crc);
    OctetsThereAndBack(c.data);
    hide ToBytes, ToOctets;
    OptionThereAndBack(c.options, 0);
  }

  // ---------- From end to end ----------

  /** What a program sends: a packet identifier, data, and how to encode it. */
  datatype Message = Message(id: nat, data: Codec.Octets, options: Codec.Options)

  function Encoding(z: Codec.Compressor, m: Message, packetSize: nat): Option<Codec.Content>
    requires packetSize < 0x10000
  {
    Codec.Encoded(z, Codec.Content(Codec.NO_OPTIONS, 0, m.data), packetSize, m.options)
  }

  /** The data with a header fits the packet size, and encoding does not fail. */
  predicate Sendable(z: Codec.Compressor, m: Message, packetSize: nat)
    requires packetSize < 0x10000
  {
    m.id < 0x10000 && |m.data| + Framing.HEADER_SIZE <= packetSize && Encoding(z, m, packetSize).Some?
  }

  predicate AllSendable(z: Codec.Compressor, ms: seq<Message>, packetSize: nat)
    requires packetSize < 0x10000
  {
    forall i :: 0 <= i < |ms| ==> Sendable(z, ms[i], packetSize)
  }

  function Packets(z: Codec.Compressor, ms: seq<Message>, packetSize: nat): (ps: seq<Framing.Packet>)
    requires packetSize < 0x10000 && AllSendable(z, ms, packetSize)
    ensures |ps| == |ms|
  {
    seq(|ms|, i requires 0 <= i < |ms| => ToWire(ms[i].id, Encoding(z, ms[i], packetSize).value))
  }

  /** A packet that was sent may be sent, and is decoded to the data and the identifier it was made from. */
  lemma MessageArrives(z: Codec.Compressor, m: Message, packetSize: nat)
    requires packetSize < 0x10000 && Codec.Inverse(z) && Sendable(z, m, packetSize)
    ensures var p := ToWire(m.id, Encoding(z, m, packetSize).value);
            && Framing.Sendable(p, Framing.DataLimit(packetSize)) && p.header.packetID == m.id
            && Codec.Decoded(z, FromWire(p), packetSize) == Codec.Ok(m.data)
  {
    hide Codec.Encoded, Codec.Decoded, Codec.Inverse;
    var c := Codec.Content(Codec.NO_OPTIONS, 0, m.data);
    Codec.EncodedFits(z, c, packetSize, m.options);
    Codec.DecodeEncode(z, c, packetSize, m.options);
    WireThereAndBack(m.id, Encoding(z, m, packetSize).value, Framing.DataLimit(packetSize));
  }

  /** Packet `p` is decoded to message `m`. */
  predicate Delivers(z: Codec.Compressor, p: Framing.Packet, m: Message, packetSize: nat) {
    && p.header.dataCRC < 0x1_0000_0000 && p.header.packetID == m.id
    && Codec.Decoded(z, FromWire(p), packetSize) == Codec.Ok(m.data)
  }

  /**
   From end to end: whatever messages are sent with whatever options, however their bytes are
   cut into chunks, and however appending and reading alternate, the messages handed out so far
   are the first ones sent, in order and unchanged; and when everything has arrived and nothing
   whole is left to read, they are all of them.
  */
  lemma EndToEnd(z: Codec.Compressor, ms: seq<Message>, packetSize: nat,
                 es: seq<Framing.Event>, size: nat)
    requires packetSize < 0x10000 && Codec.Inverse(z)
    requires AllSendable(z, ms, packetSize)
    requires var limit := Framing.DataLimit(packetSize);
             && Framing.Accepted(es, size, limit)
             && Framing.Arrived(es) <= Framing.Wire(Packets(z, ms, packetSize))
    ensures var limit := Framing.DataLimit(packetSize);
            var r := Framing.Run(es, size, limit);
            && |r.delivered| <= |ms|
            && (forall i :: 0 <= i < |r.delivered| ==> Delivers(z, r.delivered[i], ms[i], packetSize))
            && (Framing.Arrived(es) == Framing.Wire(Packets(z, ms, packetSize)) ==>
                  (!Framing.Read(r.buffered, limit).Whole? ==> |r.delivered| == |ms|))
  {
    hide Framing.Accepted, Framing.Arrived, Framing.Run, Framing.Wire, Framing.Read, Framing.Sendable;
    hide Codec.Inverse, Codec.Decoded, Sendable, ToWire, FromWire, Encoding;
    var ps, limit := Packets(z, ms, packetSize), Framing.DataLimit(packetSize);
    forall i | 0 <= i < |ms|
      ensures Framing.Sendable(ps[i], limit) && Delivers(z, ps[i], ms[i], packetSize)
    {
      MessageArrives(z, ms[i], packetSize);
      FrameFits(ps[i], limit);
    }
    Framing.DeliveredInOrder(ps, es, size, limit);
  }

  lemma FrameFits(p: Framing.Packet, limit: nat)
    requires Framing.Sendable(p, limit)
    ensures p.header.dataCRC < 0x1_0000_0000
  {
  }
}
