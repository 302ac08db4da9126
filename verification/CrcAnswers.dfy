/**
 Known answers: the check value of CRC-32, and entries of the table that is printed in
 `BaseLayer/SFFastCRC.cpp`.
*/
module CrcAnswers {
  import opened Crc32
  import CrcTable

  /** Every table of the checksum has these entries; by `TableIsLinear` they determine the others. */
  lemma TableEntries(t: seq<bv32>)
    requires CrcTable.IsTable(t)
    ensures |t| == 256 && t[0] == 0 && t[255] == 0x2D02EF8D
    ensures t[1] == 0x77073096 && t[2] == 0xEE0E612C && t[4] == 0x076DC419 && t[8] == 0x0EDB8832
    ensures t[16] == 0x1DB71064 && t[32] == 0x3B6E20C8 && t[64] == 0x76DC4190 && t[128] == 0xEDB88320
  {
    StepsOf0();
    StepsOf1();
    StepsOf2();
    StepsOf4();
    StepsOf8();
    StepsOf16();
    StepsOf32();
    StepsOf64();
    StepsOf128();
    StepsOf255();
    hide Steps;
    assert CrcTable.Entry(0) == 0;
    assert CrcTable.Entry(1) == 1;
    assert CrcTable.Entry(2) == 2;
    assert CrcTable.Entry(4) == 4;
    assert CrcTable.Entry(8) == 8;
    assert CrcTable.Entry(16) == 16;
    assert CrcTable.Entry(32) == 32;
    assert CrcTable.Entry(64) == 64;
    assert CrcTable.Entry(128) == 128;
    assert CrcTable.Entry(255) == 255;
  }

  /** The entry of an exclusive or is the exclusive or of the entries. */
  lemma TableIsLinear(t: seq<bv32>, i: nat, j: nat, k: nat)
    requires CrcTable.IsTable(t) && i < 256 && j < 256 && k < 256
    requires CrcTable.Entry(k) == Xor(CrcTable.Entry(i), CrcTable.Entry(j))
    ensures |t| == 256 && t[k] == Xor(t[i], t[j])
  {
    hide Steps, Xor;
    CrcTable.StepsLinear(CrcTable.Entry(i), CrcTable.Entry(j), 8);
  }

  lemma StepsOf0()
    ensures Steps(0, 8) == 0x00000000
  {
  }

  lemma StepsOf1()
    ensures Steps(1, 8) == 0x77073096
  {
  }

  lemma StepsOf2()
    ensures Steps(2, 8) == 0xEE0E612C
  {
  }

  lemma StepsOf4()
    ensures Steps(4, 8) == 0x076DC419
  {
  }

  lemma StepsOf8()
    ensures Steps(8, 8) == 0x0EDB8832
  {
  }

  lemma StepsOf16()
    ensures Steps(16, 8) == 0x1DB71064
  {
  }

  lemma StepsOf32()
    ensures Steps(32, 8) == 0x3B6E20C8
  {
  }

  lemma StepsOf64()
    ensures Steps(64, 8) == 0x76DC4190
  {
  }

  lemma StepsOf128()
    ensures Steps(128, 8) == 0xEDB88320
  {
  }

  lemma StepsOf255()
    ensures Steps(255, 8) == 0x2D02EF8D
  {
  }

  /** One more byte of a message. */
  lemma FeedByte(s: seq<bv8>, b: bv8, r: bv32, r': bv32)
    requires Feed(ONES, MessageBits(s)) == r && Steps(Xor(r, Value(b)), 8) == r'
    ensures Feed(ONES, MessageBits(s + [b])) == r'
  {
    var w := s + [b];
    assert w[..|s|] == s && w[|s|] == b;
    assert MessageBits(w) == MessageBits(s) + BitsOf(Value(b), 8);
    FeedAppend(ONES, MessageBits(s), BitsOf(Value(b), 8));
    ByteFeeds(r, b);
  }

  /** The checksum of one zero byte. */
  lemma CrcOfZero()
    ensures Crc([0]) == 0xD202EF8D
  {
    ZeroSteps();
    hide Steps, Xor;
    FeedByte([], 0, ONES, 0x2dfd1072);
    assert [] + [0 as bv8] == [0];
    ZeroAnswer();
  }

  lemma ZeroSteps()
    ensures Steps(Xor(ONES, Value(0)), 8) == 0x2dfd1072
  {
  }

  lemma ZeroAnswer()
    ensures Xor(0x2dfd1072, ONES) == 0xD202EF8D
  {
  }

  /** Eight steps, four at a time. */
  lemma InHalves(r: bv32, half: bv32, r': bv32)
    requires Steps(r, 4) == half && Steps(half, 4) == r'
    ensures Steps(r, 8) == r'
  {
    hide Steps;
    CrcTable.StepsAppend(r, 4, 4);
  }

  lemma CheckStep1()
    ensures Steps(Xor(0xFFFFFFFF, Value(49)), 8) == 0x7C231048
  {
    assert Xor(0xFFFFFFFF, Value(49)) == 0xFFFFFFCE;
    InHalves(0xFFFFFFCE, 0xAFF51D84, 0x7C231048);
  }

  lemma CheckStep2()
    ensures Steps(Xor(0x7C231048, Value(50)), 8) == 0xB0ACBB32
  {
    assert Xor(0x7C231048, Value(50)) == 0x7C23107A;
    InHalves(0x7C23107A, 0xD11492EF, 0xB0ACBB32);
  }

  lemma CheckStep3()
    ensures Steps(Xor(0xB0ACBB32, Value(51)), 8) == 0x77B79C2D
  {
    assert Xor(0xB0ACBB32, Value(51)) == 0xB0ACBB01;
    InHalves(0xB0ACBB01, 0x16BDDBD4, 0x77B79C2D);
  }

  lemma CheckStep4()
    ensures Steps(Xor(0x77B79C2D, Value(52)), 8) == 0x641C1F5C
  {
    assert Xor(0x77B79C2D, Value(52)) == 0x77B79C19;
    InHalves(0x77B79C19, 0xF774EA85, 0x641C1F5C);
  }

  lemma CheckStep5()
    ensures Steps(Xor(0x641C1F5C, Value(53)), 8) == 0x340AC5E3
  {
    assert Xor(0x641C1F5C, Value(53)) == 0x641C1F69;
    InHalves(0x641C1F69, 0xF64E52B2, 0x340AC5E3);
  }

  lemma CheckStep6()
    ensures Steps(Xor(0x340AC5E3, Value(54)), 8) == 0xF68D2C9E
  {
    assert Xor(0x340AC5E3, Value(54)) == 0x340AC5D5;
    InHalves(0x340AC5D5, 0x682BFDA9, 0xF68D2C9E);
  }

  lemma CheckStep7()
    ensures Steps(Xor(0xF68D2C9E, Value(55)), 8) == 0xAFFC9660
  {
    assert Xor(0xF68D2C9E, Value(55)) == 0xF68D2CA9;
    InHalves(0xF68D2CA9, 0xFF67418E, 0xAFFC9660);
  }

  lemma CheckStep8()
    ensures Steps(Xor(0xAFFC9660, Value(56)), 8) == 0x651F2550
  {
    assert Xor(0xAFFC9660, Value(56)) == 0xAFFC9658;
    InHalves(0xAFFC9658, 0xE7474A45, 0x651F2550);
  }

  lemma CheckStep9()
    ensures Steps(Xor(0x651F2550, Value(57)), 8) == 0x340BC6D9
  {
    assert Xor(0x651F2550, Value(57)) == 0x651F2569;
    InHalves(0x651F2569, 0xF65E6112, 0x340BC6D9);
  }

  /** The check value of the standard test message, the digits from 1 to 9. */
  lemma CrcCheckValue()
    ensures Crc([49, 50, 51, 52, 53, 54, 55, 56, 57]) == 0xCBF43926
  {
    hide Steps, Xor, Value, Feed, MessageBits;
    Nothing();
    CheckStep1();
    FeedByte([], 49, 0xFFFFFFFF, 0x7C231048);
    assert [] + [49 as bv8] == [49];
    CheckStep2();
    FeedByte([49], 50, 0x7C231048, 0xB0ACBB32);
    assert [49] + [50 as bv8] == [49, 50];
    CheckStep3();
    FeedByte([49, 50], 51, 0xB0ACBB32, 0x77B79C2D);
    assert [49, 50] + [51 as bv8] == [49, 50, 51];
    CheckStep4();
    FeedByte([49, 50, 51], 52, 0x77B79C2D, 0x641C1F5C);
    assert [49, 50, 51] + [52 as bv8] == [49, 50, 51, 52];
    CheckStep5();
    FeedByte([49, 50, 51, 52], 53, 0x641C1F5C, 0x340AC5E3);
    assert [49, 50, 51, 52] + [53 as bv8] == [49, 50, 51, 52, 53];
    CheckStep6();
    FeedByte([49, 50, 51, 52, 53], 54, 0x340AC5E3, 0xF68D2C9E);
    assert [49, 50, 51, 52, 53] + [54 as bv8] == [49, 50, 51, 52, 53, 54];
    CheckStep7();
    FeedByte([49, 50, 51, 52, 53, 54], 55, 0xF68D2C9E, 0xAFFC9660);
    assert [49, 50, 51, 52, 53, 54] + [55 as bv8] == [49, 50, 51, 52, 53, 54, 55];
    CheckStep8();
    FeedByte([49, 50, 51, 52, 53, 54, 55], 56, 0xAFFC9660, 0x651F2550);
    assert [49, 50, 51, 52, 53, 54, 55] + [56 as bv8] == [49, 50, 51, 52, 53, 54, 55, 56];
    CheckStep9();
    FeedByte([49, 50, 51, 52, 53, 54, 55, 56], 57, 0x651F2550, 0x340BC6D9);
    assert [49, 50, 51, 52, 53, 54, 55, 56] + [57 as bv8] == [49, 50, 51, 52, 53, 54, 55, 56, 57];
    CheckAnswer();
  }

  lemma Nothing()
    ensures Feed(ONES, MessageBits([])) == 0xFFFFFFFF
  {
  }

  lemma CheckAnswer()
    ensures Xor(0x340BC6D9, ONES) == 0xCBF43926
  {
  }
}
