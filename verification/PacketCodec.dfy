/**
 The encoding of a packet's data for the wire and back, `EngineLayer/SFPacket.cpp`: compress,
 encrypt, checksum; compare the checksum, decrypt, decompress. All of it happens in the
 packet's own buffer.
*/
module PacketCodec {
  import opened Crc32
  import opened Optional
  import opened XorCipher
  import CrcTable
  import Framing = PacketFraming

  const COMPRESS_LIMIT := 1024

  type Octets = seq<bv8>

  /** The three option bits of the header. */
  datatype Options = Options(dataCrc: bool, encryption: bool, compress: bool)

  const NO_OPTIONS := Options(false, false, false)

  /** What a decompression has written to its destination, and whether it came to its end. */
  datatype Output = Output(written: Octets, ok: bool)

  /** LZF: it is told the room at the destination, and fails when that is not enough. */
  datatype Compressor = Compressor(compress: (Octets, nat) -> Option<Octets>, decompress: (Octets, nat) -> Output)

  /** A decompression writes no more than the room it was given, whether it succeeds or fails. */
  ghost predicate WithinRoom(z: Compressor) {
    forall c: Octets, m: nat :: |z.decompress(c, m).written| <= m
  }

  /** Whatever was compressed is decompressed to what it was, given room for it. */
  ghost predicate Inverse(z: Compressor) {
    forall s: Octets, n: nat :: z.compress(s, n).Some? ==> Undoes(z, z.compress(s, n).value, s, n)
  }

  ghost predicate Undoes(z: Compressor, c: Octets, s: Octets, n: nat) {
    0 < |c| <= n && forall m: nat :: if |s| <= m then z.decompress(c, m) == Output(s, true) else !z.decompress(c, m).ok
  }

  /** What encoding works on: two fields of the header, and the data. */
  datatype Content = Content(options: Options, crc: bv32, data: Octets)

  datatype Error = NoError | DataCrcError | CompressError

  datatype Result = Ok(data: Octets) | Failed(error: Error)

  // ---------- What encoding and decoding mean ----------

  /** Small data is sent as it is, whatever the options say. */
  predicate Squeezed(data: Octets, o: Options) {
    o.compress && |data| >= COMPRESS_LIMIT
  }

  /** Data is compressed from 1024 bytes on. */
  lemma SqueezedIff(data: Octets, o: Options)
    ensures Squeezed(data, o) <==> o.compress && |data| >= 1024
  {
  }

  function Packed(z: Compressor, data: Octets, room: nat, o: Options): Option<Octets> {
    if Squeezed(data, o) then z.compress(data, room) else Some(data)
  }

  function Locked(data: Octets, o: Options): (r: Octets)
    ensures |r| == |data|
  {
    if o.encryption then Crypt(data) else data
  }

  function Sealed(c: Content, d: Octets, o: Options): Content {
    var e := Locked(d, o);
    Content(o.(compress := Squeezed(c.data, o)), if o.dataCrc then Crc(e) else c.crc, e)
  }

  /** LZF is told the data limit as its room, which wraps around for a packet size below the header size. */
  function Encoded(z: Compressor, c: Content, packetSize: nat, o: Options): Option<Content>
    requires packetSize < 0x10000
  {
    if c.data == [] then Some(c)
    else
      match Packed(z, c.data, Framing.DataLimit(packetSize), o)
      case None => None
      case Some(d) => Some(Sealed(c, d, o))
  }

  /** With all options the data is compressed, then encrypted, and the checksum is that of what is sent. */
  lemma EncodedWithAll(z: Compressor, data: Octets, packetSize: nat)
    requires packetSize < 0x10000 && |data| >= 1024 && z.compress(data, Framing.DataLimit(packetSize)).Some?
    ensures var o := Options(dataCrc := true, encryption := true, compress := true);
            var sent := Crypt(z.compress(data, Framing.DataLimit(packetSize)).value);
            Encoded(z, Content(NO_OPTIONS, 0, data), packetSize, o) == Some(Content(o, Crc(sent), sent))
  {
    hide Crc, Crypt;
  }

  /** What is taken for a packet: the checksum is compared first, then the data is decrypted, then decompressed. */
  lemma DecodedWithAll(z: Compressor, sent: Octets, crc: bv32, packetSize: nat)
    ensures var c := Content(Options(dataCrc := true, encryption := true, compress := true), crc, sent);
            var s := z.decompress(Crypt(sent), packetSize);
            Decoded(z, c, packetSize) ==
            (if Crc(sent) != crc then Failed(DataCrcError)
             else if s.ok && |s.written| + 12 <= packetSize then Ok(s.written) else Failed(CompressError))
  {
    hide Crc, Crypt;
  }

  predicate Intact(c: Content) {
    c.options.dataCrc ==> Crc(c.data) == c.crc
  }

  function Unpacked(z: Compressor, d: Octets, packetSize: nat): Result {
    var s := z.decompress(d, packetSize);
    if !s.ok || |s.written| + Framing.HEADER_SIZE > packetSize then Failed(CompressError) else Ok(s.written)
  }

  function Decoded(z: Compressor, c: Content, packetSize: nat): Result {
    if !Intact(c) then Failed(DataCrcError)
    else if c.options.compress then Unpacked(z, Locked(c.data, c.options), packetSize)
    else Ok(Locked(c.data, c.options))
  }

  /**
   Decoding gives back the data that was encoded, whatever the options, exactly if the data with
   its header fits the packet size or was sent uncompressed. (A new packet has no options yet.)
  */
  lemma DecodeEncode(z: Compressor, c: Content, packetSize: nat, o: Options)
    requires Inverse(z) && packetSize < 0x10000
    requires Encoded(z, c, packetSize, o).Some? && (c.data == [] ==> c.options == NO_OPTIONS)
    ensures var e := Encoded(z, c, packetSize, o).value;
            Decoded(z, e, packetSize) == Ok(c.data) <==>
              (|c.data| + Framing.HEADER_SIZE <= packetSize || !Squeezed(c.data, o))
  {
    hide Crypt, Crc;
    if c.data != [] {
      var d := Packed(z, c.data, Framing.DataLimit(packetSize), o).value;
      CryptTwice(d);
      if Squeezed(c.data, o) {
        assert Undoes(z, d, c.data, Framing.DataLimit(packetSize));
      }
    }
  }

  /** The checksum is taken last, over the bytes that are sent, so it always agrees on arrival. */
  lemma EncodedIsIntact(z: Compressor, c: Content, packetSize: nat, o: Options)
    requires packetSize < 0x10000
    requires Encoded(z, c, packetSize, o).Some? && (c.data == [] ==> c.options == NO_OPTIONS)
    ensures Intact(Encoded(z, c, packetSize, o).value)
  {
    hide Crc, Crypt;
  }

  /** What is sent fits the packet size if the data did. */
  lemma EncodedFits(z: Compressor, c: Content, packetSize: nat, o: Options)
    requires Inverse(z) && |c.data| + Framing.HEADER_SIZE <= packetSize < 0x10000
    requires Encoded(z, c, packetSize, o).Some?
    ensures |Encoded(z, c, packetSize, o).value.data| + Framing.HEADER_SIZE <= packetSize
  {
    hide Crc, Crypt;
    if c.data != [] && Squeezed(c.data, o) {
      var d := Packed(z, c.data, Framing.DataLimit(packetSize), o).value;
      assert Undoes(z, d, c.data, Framing.DataLimit(packetSize));
    }
  }

  /** Data that changed on the way, inside a window of 32 bits, is never taken for a packet. */
  lemma DamageIsRefused(z: Compressor, c: Content, packetSize: nat, o: Options, damaged: Octets, k: nat)
    requires packetSize < 0x10000 && c.data != [] && o.dataCrc
    requires Encoded(z, c, packetSize, o).Some?
    requires Burst(damaged, Encoded(z, c, packetSize, o).value.data, k)
    ensures var e := Encoded(z, c, packetSize, o).value;
            Decoded(z, e.(data := damaged), packetSize) == Failed(DataCrcError)
  {
    hide Crc, Crypt, Burst;
    var e := Encoded(z, c, packetSize, o).value;
    BurstsAreDetected(damaged, e.data, k);
  }

  /** How many bytes a decoding writes past a data area of `room` bytes. */
  function Overrun(z: Compressor, c: Content, packetSize: nat, room: nat): nat {
    if !Intact(c) || !c.options.compress then 0
    else
      var n := |z.decompress(Locked(c.data, c.options), packetSize).written|;
      if n <= room then 0 else n - room
  }

  /** Decoding stays inside the data area, whatever arrives, if and only if the packet size does. */
  lemma StaysInsideIff(packetSize: nat, room: nat)
    ensures packetSize <= room <==>
            forall z: Compressor, c: Content :: WithinRoom(z) ==> Overrun(z, c, packetSize, room) == 0
  {
    hide Crc, Crypt;
    forall z: Compressor, c: Content | WithinRoom(z) && packetSize <= room
      ensures Overrun(z, c, packetSize, room) == 0
    {
      assert |z.decompress(Locked(c.data, c.options), packetSize).written| <= packetSize;
    }
    if packetSize > room {
      var z := Compressor((s: Octets, n: nat) => None, (s: Octets, n: nat) => Output(seq(n, _ => 0), true));
      var c := Content(NO_OPTIONS.(compress := true), 0, []);
      assert WithinRoom(z) && Overrun(z, c, packetSize, room) > 0;
    }
  }

  /** At most twelve bytes are written past the data area of a packet that is as long as the packet size. */
  lemma OverrunBound(z: Compressor, c: Content, packetSize: nat, room: nat)
    requires WithinRoom(z) && packetSize <= room + Framing.HEADER_SIZE
    ensures Overrun(z, c, packetSize, room) <= Framing.HEADER_SIZE
    ensures Decoded(z, c, packetSize).Ok? ==> Overrun(z, c, packetSize, room) == 0
  {
    hide Crc, Crypt;
    assert |z.decompress(Locked(c.data, c.options), packetSize).written| <= packetSize;
  }

  /** How many bytes an encoding writes past a data area of `room` bytes. */
  function Excess(z: Compressor, c: Content, packetSize: nat, o: Options, room: nat): nat
    requires packetSize < 0x10000
  {
    if !Squeezed(c.data, o) then 0
    else
      match z.compress(c.data, Framing.DataLimit(packetSize))
      case None => 0
      case Some(d) => if |d| <= room then 0 else |d| - room
  }

  /** Adds a byte that the decompression takes off again. */
  function Padding(): Compressor {
    Compressor(
      (s: Octets, n: nat) => if |s| + 1 <= n then Some(s + [0]) else None,
      (s: Octets, n: nat) =>
        if s != [] && |s| - 1 <= n then Output(s[..|s| - 1], true) else Output([], false))
  }

  lemma PaddingIsInverse()
    ensures Inverse(Padding()) && WithinRoom(Padding())
  {
    var z := Padding();
    forall s: Octets, n: nat | z.compress(s, n).Some?
      ensures Undoes(z, z.compress(s, n).value, s, n)
    {
      assert (s + [0])[..|s|] == s;
    }
  }

  /**
   Encoding stays inside the data area, whatever data lies in it, if and only if the data limit
   does, or the area is too small for data that is compressed.
  */
  lemma EncodingStaysInsideIff(packetSize: nat, room: nat)
    requires packetSize < 0x10000
    ensures (Framing.DataLimit(packetSize) <= room || room < COMPRESS_LIMIT) <==>
            forall z: Compressor, c: Content, o: Options ::
              Inverse(z) && |c.data| <= room ==> Excess(z, c, packetSize, o, room) == 0
  {
    var limit := Framing.DataLimit(packetSize);
    forall z: Compressor, c: Content, o: Options | Inverse(z) && |c.data| <= room && limit <= room
      ensures Excess(z, c, packetSize, o, room) == 0
    {
      assert z.compress(c.data, limit).Some? ==> Undoes(z, z.compress(c.data, limit).value, c.data, limit);
    }
    if limit > room && room >= COMPRESS_LIMIT {
      PaddingIsInverse();
      var c, o := Content(NO_OPTIONS, 0, seq(room, _ => 0)), NO_OPTIONS.(compress := true);
      assert Excess(Padding(), c, packetSize, o, room) == 1;
    }
  }

  lemma PutLeaves(new': Octets, s: Octets, was: Octets)
    requires |s| <= |was| && new' == s + was[|s|..]
    ensures new'[..|s|] == s && new'[|s|..] == was[|s|..]
  {
  }

  /** The data area starts with what fits of `s`, and the rest is zero. */
  predicate StartsWith(area: Octets, s: Octets) {
    forall i :: 0 <= i < |area| ==> area[i] == if i < |s| then s[i] else 0
  }

  lemma WriteOnZeros(was: Octets, s: Octets)
    requires |s| <= |was| && forall i :: 0 <= i < |was| ==> was[i] == 0
    ensures forall t: Octets :: s <= t && (t == s || |s| == |was|) ==> StartsWith(s + was[|s|..], t)
  {
  }

  // ---------- The packet ----------

  /** Copies bytes to the front of an array. */
  method Put(dst: array<bv8>, s: Octets)
    requires |s| <= dst.Length
    modifies dst
    ensures dst[..] == s + old(dst[..])[|s|..]
  {
    for i := 0 to |s|
      invariant forall k :: 0 <= k < i ==> dst[k] == s[k]
      invariant forall k :: i <= k < dst.Length ==> dst[k] == old(dst[k])
    {
      dst[i] := s[i];
    }
  }

  class Packet {
    var packetID: nat
    var basePacketID: nat
    var options: Options
    var dataCRC: bv32
    var dataSize: nat
    const data: array<bv8>
    var encoded: bool

    /** The data size in the header is not more than the buffer holds. */
    ghost predicate Sized()
      reads this`dataSize
    {
      dataSize <= data.Length
    }

    ghost function Contents(): Content
      requires Sized()
      reads this, data
    {
      Content(options, dataCRC, data[..dataSize])
    }

    constructor (id: nat, maxSize: nat)
      requires maxSize >= Framing.HEADER_SIZE
      ensures Sized() && fresh(data) && data.Length == maxSize - Framing.HEADER_SIZE
      ensures Contents() == Content(NO_OPTIONS, 0, []) && !encoded && packetID == id
      ensures forall i :: 0 <= i < data.Length ==> data[i] == 0
    {
      data := new bv8[maxSize - Framing.HEADER_SIZE](_ => 0);
      packetID, basePacketID := id, 0;
      options, dataCRC, dataSize, encoded := NO_OPTIONS, 0, 0, false;
    }

    /** The checksum of the data, with the table of the checksum class. */
    method GetDataCRC(table: seq<bv32>) returns (crc: bv32)
      requires Sized() && CrcTable.IsTable(table)
      ensures crc == Crc(data[..dataSize])
    {
      crc := CrcTable.FromBuffer(table, data, dataSize);
    }

    /**
     Encodes the data in place, once. When it fails nothing has changed. `past` is how far the
     compressed data was written beyond the data area; if it was, nothing more is said.
    */
    method Encode(z: Compressor, table: seq<bv32>, packetSize: nat, packetOption: Options)
      returns (ok: bool, ghost past: nat)
      requires CrcTable.IsTable(table) && Inverse(z) && packetSize < 0x10000
      modifies this`options, this`dataCRC, this`dataSize, this`encoded, data
      ensures old(encoded) || !old(Sized()) ==>
        past == 0 && ok == old(encoded) && unchanged(this) && unchanged(data)
      ensures !old(encoded) && old(Sized()) ==>
        past == Excess(z, old(Contents()), packetSize, packetOption, data.Length)
      ensures !old(encoded) && old(Sized()) && past == 0 ==>
        && Sized() && ok == Encoded(z, old(Contents()), packetSize, packetOption).Some?
        && Contents() == (if ok then Encoded(z, old(Contents()), packetSize, packetOption).value else old(Contents()))
        && encoded == (ok && old(dataSize) > 0)
        && data[dataSize..] == old(data[..])[dataSize..]
    {
      hide Crc, Crypt;
      past := 0;
      if encoded {
        return true, past;
      }
      if dataSize > data.Length {
        return false, past;
      }
      if dataSize == 0 {
        return true, past;
      }
      var option := packetOption;
      ghost var d := data[..dataSize];
      if option.compress && dataSize >= COMPRESS_LIMIT {
        var dest := z.compress(data[..dataSize], Framing.DataLimit(packetSize));
        if dest.None? {
          return false, past;
        }
        assert Undoes(z, dest.value, data[..dataSize], Framing.DataLimit(packetSize));
        if |dest.value| > data.Length {
          Put(data, dest.value[..data.Length]);
          past := |dest.value| - data.Length;
          return true, past;
        }
        Put(data, dest.value);
        dataSize := |dest.value|;
        d := dest.value;
        PutLeaves(data[..], dest.value, old(data[..]));
      } else {
        option := option.(compress := false);
      }
      assert data[..dataSize] == d;
      if option.encryption {
        Encrypt(data, dataSize);
      }
      assert data[..dataSize] == Locked(d, option);
      if option.dataCrc {
        dataCRC := GetDataCRC(table);
      }
      options := option;
      encoded := true;
      return true, past;
    }

    /**
     Accepts the data it was given the checksum of, and refuses it when it was damaged on the way
     inside a window of 32 bits.
    */
    method CheckDataCRC(table: seq<bv32>) returns (ok: bool)
      requires Sized() && CrcTable.IsTable(table)
      ensures ok <==> Crc(data[..dataSize]) == dataCRC
      ensures forall sent: Octets, k: nat :: Burst(sent, data[..dataSize], k) && Crc(sent) == dataCRC ==> !ok
    {
      hide Crc, Burst;
      var crc := GetDataCRC(table);
      ok := crc == dataCRC;
      forall sent: Octets, k: nat | Burst(sent, data[..dataSize], k)
        ensures Crc(sent) != Crc(data[..dataSize])
      {
        BurstsAreDetected(sent, data[..dataSize], k);
      }
    }

    /**
     Decodes the data in place. An error code is set only when it fails. LZF is told the packet
     size as its room, not the size of the data area; `past` is how far it writes beyond that.
    */
    method Decode(z: Compressor, table: seq<bv32>, packetSize: nat, errorCode: Error)
      returns (ok: bool, error: Error, ghost past: nat)
      requires Sized() && packetSize <= data.Length + Framing.HEADER_SIZE
      requires WithinRoom(z) && CrcTable.IsTable(table)
      modifies this`dataSize, this`basePacketID, data
      ensures Sized() && past == Overrun(z, old(Contents()), packetSize, data.Length)
      ensures match Decoded(z, old(Contents()), packetSize)
              case Ok(d) => ok && error == errorCode && data[..dataSize] == d && basePacketID == packetID
              case Failed(e) => !ok && error == e && dataSize == old(dataSize) && basePacketID == old(basePacketID)
      ensures var c := old(Contents());
              if !Intact(c) then data[..] == old(data[..])
              else if !c.options.compress then data[old(dataSize)..] == old(data[dataSize..])
              else StartsWith(data[..], z.decompress(Locked(c.data, c.options), packetSize).written)
    {
      hide Crc, Crypt, StartsWith;
      error := errorCode;
      past := 0;
      OverrunBound(z, Contents(), packetSize, data.Length);
      if options.dataCrc {
        var same := CheckDataCRC(table);
        if !same {
          return false, DataCrcError, past;
        }
      }
      ghost var c := data[..dataSize];
      if options.encryption {
        Encrypt(data, dataSize);
      }
      assert data[..dataSize] == Locked(c, options);
      if options.compress {
        ok, past := Uncompress(z, packetSize);
        if !ok {
          return false, CompressError, past;
        }
      }
      basePacketID := packetID;
      return true, error, past;
    }

    /** Replaces the data by what it decompresses to, on a zeroed data area. */
    method Uncompress(z: Compressor, packetSize: nat) returns (ok: bool, ghost past: nat)
      requires Sized() && packetSize <= data.Length + Framing.HEADER_SIZE
      modifies this`dataSize, data
      ensures var s := z.decompress(old(data[..dataSize]), packetSize);
              && ok == (s.ok && |s.written| + Framing.HEADER_SIZE <= packetSize)
              && (ok ==> dataSize == |s.written| <= data.Length && data[..dataSize] == s.written)
              && (!ok ==> dataSize == old(dataSize))
              && past == (if |s.written| <= data.Length then 0 else |s.written| - data.Length)
              && StartsWith(data[..], s.written)
    {
      hide StartsWith;
      var src := data[..dataSize];
      ResetDataBuffer();
      var dest := z.decompress(src, packetSize);
      var n := |dest.written|;
      past := 0;
      if n <= data.Length {
        WriteOnZeros(data[..], dest.written);
        Put(data, dest.written);
      } else {
        WriteOnZeros(data[..], dest.written[..data.Length]);
        Put(data, dest.written[..data.Length]);
        past := n - data.Length;
      }
      if !dest.ok {
        return false, past;
      }
      if n + Framing.HEADER_SIZE > packetSize {
        return false, past;
      }
      dataSize := n;
      assert data[..dataSize] == dest.written;
      return true, past;
    }

    method ResetDataBuffer()
      modifies data
      ensures forall i :: 0 <= i < data.Length ==> data[i] == 0
    {
      for i := 0 to data.Length
        invariant forall k :: 0 <= k < i ==> data[k] == 0
      {
        data[i] := 0;
      }
    }
  }
}
