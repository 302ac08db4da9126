/**
 The table driven checksums: `CrcGenerateTable` of `BaseLayer/External/7zcrc.cpp`,
 `GetSimpleCRC` of `BaseLayer/SFFastCRC.cpp`, and `CalcCrc32` and `FromBuffer` of
 `EngineLayer/SFCheckSum.cpp`, each proved equal to the checksum of a register that is fed
 one bit at a time.
*/
module CrcTable {
  import opened Crc32

  function LowByte(r: bv32): bv32 {
    r & 0xFF
  }

  function Rest(r: bv32): bv32 {
    r & !0xFF
  }

  function ByteDown(r: bv32): bv32 {
    r >> 8
  }

  /** The table index a register selects. */
  function Low(r: bv32): nat {
    LowByte(r) as nat
  }

  function Entry(i: nat): bv32
    requires i < 256
  {
    i as bv32
  }

  lemma LowEntry(r: bv32)
    ensures Low(r) < 256 && Entry(Low(r)) == LowByte(r)
  {
    AtMost255(r);
    hide LowByte;
    ThereAndBack(LowByte(r));
  }

  lemma AtMost255(r: bv32)
    ensures LowByte(r) <= 0xFF
  {
  }

  lemma ThereAndBack(x: bv32)
    requires x <= 0xFF
    ensures x as nat < 256 && (x as nat) as bv32 == x
  {
  }

  /** A 256-entry table for one byte at a time. */
  ghost predicate IsTable(t: seq<bv32>) {
    |t| == 256 && forall i :: 0 <= i < 256 ==> t[i] == Steps(Entry(i), 8)
  }

  // ---------- One table step is eight steps of the register ----------

  lemma {:induction false} StepsLinear(a: bv32, b: bv32, n: nat)
    ensures Steps(Xor(a, b), n) == Xor(Steps(a, n), Steps(b, n))
  {
    hide Xor, Step;
    if n > 0 {
      StepsLinear(a, b, n - 1);
      StepLinear(Steps(a, n - 1), Steps(b, n - 1));
    }
  }

  lemma {:induction false} StepsAppend(r: bv32, m: nat, n: nat)
    ensures Steps(r, m + n) == Steps(Steps(r, m), n)
  {
    hide Step;
    if n > 0 {
      StepsAppend(r, m, n - 1);
    }
  }

  lemma StepEven(h: bv32)
    requires !Odd(h)
    ensures Step(h) == Half(h)
  {
  }

  /** Steps of a register that shifts out only zeros. */
  lemma {:induction false} ShiftsOut(h: bv32, n: nat)
    requires forall i :: 0 <= i < n ==> !Odd(Halved(h, i))
    ensures Steps(h, n) == Halved(h, n)
  {
    hide Odd, Half, Step;
    if n > 0 {
      ShiftsOut(h, n - 1);
      StepEven(Halved(h, n - 1));
    }
  }

  lemma EightZeros(h: bv32, i: nat)
    requires LowByte(h) == 0 && i < 8
    ensures !Odd(Halved(h, i))
  {
    if i > 0 { HalvedLast(h, 0); }
    if i > 1 { HalvedLast(h, 1); }
    if i > 2 { HalvedLast(h, 2); }
    if i > 3 { HalvedLast(h, 3); }
    if i > 4 { HalvedLast(h, 4); }
    if i > 5 { HalvedLast(h, 5); }
    if i > 6 { HalvedLast(h, 6); }
    hide Halved;
  }

  lemma LowAndRest(r: bv32)
    ensures r == Xor(LowByte(r), Rest(r)) && LowByte(Rest(r)) == 0 && ByteDown(Rest(r)) == ByteDown(r)
  {
  }

  lemma RestMovesOut(h: bv32)
    requires LowByte(h) == 0
    ensures Steps(h, 8) == ByteDown(h)
  {
    hide Steps, Halved, Odd, LowByte;
    forall i | 0 <= i < 8
      ensures !Odd(Halved(h, i))
    {
      EightZeros(h, i);
    }
    ShiftsOut(h, 8);
    HalvedByte(h);
  }

  lemma HalvedByte(h: bv32)
    ensures Halved(h, 8) == ByteDown(h)
  {
    HalvedEight(h, 0);
  }

  lemma EightSteps(r: bv32)
    ensures Steps(r, 8) == Xor(Steps(LowByte(r), 8), ByteDown(r))
  {
    hide Xor, Steps, LowByte, Rest, ByteDown;
    LowAndRest(r);
    RestMovesOut(Rest(r));
    StepsLinear(LowByte(r), Rest(r), 8);
  }

  lemma TableStep(t: seq<bv32>, r: bv32)
    requires IsTable(t)
    ensures Low(r) < 256 && |t| == 256 && Xor(t[Low(r)], ByteDown(r)) == Steps(r, 8)
  {
    hide Xor, Steps, Low, Entry, LowByte, ByteDown;
    LowEntry(r);
    EightSteps(r);
  }

  lemma AddByte(r: bv32, b: bv8)
    ensures ByteDown(Xor(r, Value(b))) == ByteDown(r)
    ensures LowByte(Xor(r, Value(b))) == LowByte(Xor(Value(b), LowByte(r)))
  {
  }

  // ---------- The generator ----------

  /** Entry `i` of the eight tables. */
  function Slice(i: nat): bv32 {
    Steps(Entry(i % 256), 8 * (i / 256 + 1))
  }

  lemma SliceNext(i: nat)
    requires i >= 256
    ensures Slice(i) == Steps(Slice(i - 256), 8)
  {
    StepsAppend(Entry(i % 256), 8 * (i / 256), 8);
  }

  lemma Mask(r: bv32)
    ensures (r >> 1) ^ (POLY & !((r & 1) - 1)) == Step(r)
  {
    LowBit(r);
    if r & 1 == 1 {
      MaskOne(r);
    } else {
      MaskZero(r);
    }
  }

  lemma MaskOne(r: bv32)
    requires r & 1 == 1
    ensures POLY & !((r & 1) - 1) == POLY
  {
  }

  lemma MaskZero(r: bv32)
    requires r & 1 == 0
    ensures POLY & !((r & 1) - 1) == 0
  {
  }

  /** Fills the eight tables. */
  method CrcGenerateTable(table: array<bv32>)
    requires table.Length == 256 * 8
    modifies table
    ensures IsTable(table[..256])
    ensures forall i :: 0 <= i < 256 * 8 ==> table[i] == Slice(i)
  {
    hide Steps, Slice, IsTable;
    FillFirst(table);
    ghost var first := table[..256];
    var i := 256;
    while i < 256 * 8
      invariant 256 <= i <= 256 * 8 && table[..256] == first
      invariant forall k :: 0 <= k < i ==> table[k] == Slice(k)
    {
      var r := table[i - 256];
      SliceNext(i);
      TableStep(first, r);
      assert table[Low(r)] == first[Low(r)];
      table[i] := Xor(table[Low(r)], ByteDown(r));
      i := i + 1;
    }
  }

  /** The first loop of the generator: the table for one byte. */
  method FillFirst(table: array<bv32>)
    requires table.Length == 256 * 8
    modifies table
    ensures IsTable(table[..256])
    ensures forall i :: 0 <= i < 256 ==> table[i] == Slice(i)
  {
    hide Steps, Slice;
    var i := 0;
    while i < 256
      invariant 0 <= i <= 256
      invariant forall k :: 0 <= k < i ==> table[k] == Steps(Entry(k), 8)
    {
      table[i] := EightShifts(Entry(i));
      i := i + 1;
    }
    forall k | 0 <= k < 256
      ensures table[k] == Slice(k)
    {
      FirstSlice(k);
    }
  }

  /** The inner loop: eight steps of the register, in the masked form. */
  method EightShifts(start: bv32) returns (r: bv32)
    ensures r == Steps(start, 8)
  {
    hide Steps;
    r := start;
    StepsLast(start, 0);
    for j := 0 to 8
      invariant r == Steps(start, j)
    {
      Mask(r);
      StepsLast(start, j);
      r := (r >> 1) ^ (POLY & !((r & 1) - 1));
    }
  }

  lemma StepsLast(r: bv32, n: nat)
    ensures Steps(r, n + 1) == Step(Steps(r, n)) && Steps(r, 0) == r
  {
  }

  lemma FirstSlice(k: nat)
    requires k < 256
    ensures Slice(k) == Steps(Entry(k), 8)
  {
  }

  function ZeroBytes(k: nat): (s: seq<bv8>)
    ensures |s| == k
  {
    seq(k, _ => 0)
  }

  lemma FeedZeroByte(r: bv32)
    ensures Feed(r, MessageBits([0])) == Steps(r, 8)
  {
    assert Value(0) == 0;
    XorZero(r);
    hide Feed, Steps, Xor, BitsOf, MessageBits, Value;
    OneByte(0);
    ByteFeeds(r, 0);
  }

  /** Feeding zero bytes only steps the register. */
  lemma {:induction false} FeedZeroBytes(r: bv32, k: nat)
    ensures Feed(r, MessageBits(ZeroBytes(k))) == Steps(r, 8 * k)
  {
    if k > 0 {
      FeedZeroBytes(r, k - 1);
      var z := ZeroBytes(k - 1);
      assert ZeroBytes(k) == z + [0];
      hide Feed, Steps, MessageBits, ZeroBytes;
      MessageAppend(z, [0]);
      FeedAppend(r, MessageBits(z), MessageBits([0]));
      FeedZeroByte(Feed(r, MessageBits(z)));
      StepsAppend(r, 8 * (k - 1), 8);
    }
  }

  lemma FeedByte(b: bv8)
    ensures Feed(0, MessageBits([b])) == Steps(Value(b), 8)
  {
    XorCommutative(0, Value(b));
    XorZero(Value(b));
    hide Feed, Steps, Xor, BitsOf, MessageBits, Value;
    OneByte(b);
    ByteFeeds(0, b);
  }

  /** Entry `b` of table `k` is the register after byte `b` and `k` zero bytes. */
  lemma SliceMeaning(b: bv8, k: nat)
    ensures Slice(256 * k + Low(Value(b))) == Feed(0, MessageBits([b] + ZeroBytes(k)))
  {
    hide Feed, Steps, MessageBits, Low, Value, LowByte, ZeroBytes, Entry;
    var i := Low(Value(b));
    LowEntry(Value(b));
    ByteIsLow(b);
    assert (256 * k + i) % 256 == i && (256 * k + i) / 256 == k;
    MessageAppend([b], ZeroBytes(k));
    FeedByte(b);
    FeedAppend(0, MessageBits([b]), MessageBits(ZeroBytes(k)));
    FeedZeroBytes(Steps(Value(b), 8), k);
    StepsAppend(Value(b), 8, 8 * k);
  }

  lemma ByteIsLow(b: bv8)
    ensures LowByte(Value(b)) == Value(b)
  {
  }

  // ---------- The checksums ----------

  /** The register after one byte of a message. */
  lemma NextByte(s: seq<bv8>, i: nat, r: bv32)
    requires i < |s| && r == Feed(ONES, MessageBits(s[..i]))
    ensures Steps(Xor(r, Value(s[i])), 8) == Feed(ONES, MessageBits(s[..i + 1]))
  {
    hide Feed, Steps, Xor, BitsOf, MessageBits, Value;
    assert s[..i + 1] == s[..i] + [s[i]];
    MessageAppend(s[..i], [s[i]]);
    OneByte(s[i]);
    ByteFeeds(r, s[i]);
    FeedAppend(ONES, MessageBits(s[..i]), BitsOf(Value(s[i]), 8));
  }

  /** One byte of `FromBuffer`. */
  method CalcCrc32(table: seq<bv32>, b: bv8, crc: bv32) returns (crc': bv32)
    requires IsTable(table)
    ensures crc' == Steps(Xor(crc, Value(b)), 8)
  {
    hide Steps, Value, IsTable, Xor, ByteDown, LowByte;
    AddByte(crc, b);
    TableStep(table, Xor(crc, Value(b)));
    XorCommutative(ByteDown(crc), table[Low(Xor(crc, Value(b)))]);
    crc' := Xor(ByteDown(crc), table[Low(Xor(Value(b), LowByte(crc)))]);
  }

  method FromBuffer(table: seq<bv32>, buffer: array<bv8>, size: nat) returns (crc: bv32)
    requires IsTable(table) && size <= buffer.Length
    ensures crc == Crc(buffer[..size])
  {
    hide Feed, Steps, Xor, MessageBits, Value, IsTable;
    crc := 0xFFFFFFFF;
    assert crc == Feed(ONES, MessageBits(buffer[..0])) by { NoBytes(buffer[..0]); }
    for index := 0 to size
      invariant crc == Feed(ONES, MessageBits(buffer[..index]))
    {
      assert buffer[..][..index] == buffer[..index] && buffer[..][..index + 1] == buffer[..index + 1];
      NextByte(buffer[..], index, crc);
      crc := CalcCrc32(table, buffer[index], crc);
    }
    Inverted(crc);
    crc := !crc;
  }

  lemma NoBytes(s: seq<bv8>)
    requires s == []
    ensures Feed(ONES, MessageBits(s)) == ONES
  {
  }

  lemma Inverted(crc: bv32)
    ensures !crc == Xor(crc, ONES) == crc ^ ONES
  {
  }

  /** `DO1`: one byte, and the buffer pointer moves on. */
  method DoOne(table: seq<bv32>, buffer: array<bv8>, at: nat, crc: bv32) returns (at': nat, crc': bv32)
    requires IsTable(table) && at < buffer.Length && crc == Feed(ONES, MessageBits(buffer[..at]))
    ensures at' == at + 1 && crc' == Feed(ONES, MessageBits(buffer[..at']))
  {
    hide Feed, Steps, Low, MessageBits, Value, IsTable, Xor, ByteDown;
    assert buffer[..][..at] == buffer[..at] && buffer[..][..at + 1] == buffer[..at + 1];
    NextByte(buffer[..], at, crc);
    var b := buffer[at];
    AddByte(crc, b);
    TableStep(table, Xor(crc, Value(b)));
    crc' := Xor(table[Low(Xor(crc, Value(b)))], ByteDown(crc));
    at' := at + 1;
  }

  /** The unrolled loop: eight bytes a turn, then the rest one by one. A missing buffer leaves the result alone. */
  method GetSimpleCRC(table: seq<bv32>, buffer: array?<bv8>, size: nat, crc: bv32) returns (ok: bool, crc': bv32)
    requires IsTable(table) && (buffer != null ==> size <= buffer.Length)
    ensures ok == (buffer != null)
    ensures crc' == if buffer == null then crc else Crc(buffer[..size])
  {
    hide Feed, Steps, MessageBits, Value, IsTable;
    crc' := crc;
    if buffer == null {
      return false, crc';
    }
    crc' := 0;
    crc' := crc' ^ 0xFFFFFFFF;
    var at, left: nat := 0, size;
    assert crc' == Feed(ONES, MessageBits(buffer[..at])) by { NoBytes(buffer[..at]); }
    while left >= 8
      invariant at + left == size && crc' == Feed(ONES, MessageBits(buffer[..at]))
    {
      at, crc' := DoOne(table, buffer, at, crc');
      at, crc' := DoOne(table, buffer, at, crc');
      at, crc' := DoOne(table, buffer, at, crc');
      at, crc' := DoOne(table, buffer, at, crc');
      at, crc' := DoOne(table, buffer, at, crc');
      at, crc' := DoOne(table, buffer, at, crc');
      at, crc' := DoOne(table, buffer, at, crc');
      at, crc' := DoOne(table, buffer, at, crc');
      left := left - 8;
    }
    while left > 0
      invariant at + left == size && crc' == Feed(ONES, MessageBits(buffer[..at]))
    {
      at, crc' := DoOne(table, buffer, at, crc');
      left := left - 1;
    }
    Inverted(crc');
    crc' := crc' ^ 0xFFFFFFFF;
    ok := true;
  }
}
