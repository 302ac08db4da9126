/** Bytes, their bits, and byte strings read as bit strings that go on with zeros for ever. */
module Bytes {

  type byte = b: int | 0 <= b < 256

  /** Bit `k` of a number: `(b >> k) & 1`. */
  predicate NatBit(b: nat, k: nat) {
    if k == 0 then b % 2 == 1 else NatBit(b / 2, k - 1)
  }

  /** `b | (1 << k)`. */
  function NatWithBit(b: nat, k: nat): (r: nat)
    ensures NatBit(r, k) && b <= r
  {
    if k == 0 then b - b % 2 + 1 else 2 * NatWithBit(b / 2, k - 1) + b % 2
  }

  function Pow2(n: nat): (p: nat)
    ensures p > 0
  {
    if n == 0 then 1 else 2 * Pow2(n - 1)
  }

  lemma {:induction false} WithBitFits(b: nat, k: nat, n: nat)
    requires k < n && b < Pow2(n)
    ensures NatWithBit(b, k) < Pow2(n)
  {
    assert b / 2 < Pow2(n - 1);
    if k > 0 {
      WithBitFits(b / 2, k - 1, n - 1);
      assert NatWithBit(b, k) == 2 * NatWithBit(b / 2, k - 1) + b % 2;
    }
  }

  lemma Pow2Of8()
    ensures Pow2(8) == 256
  {
    assert Pow2(4) == 16;
  }

  /** `b & ~(1 << k)`. */
  function NatWithoutBit(b: nat, k: nat): (r: nat)
    ensures !NatBit(r, k) && r <= b
  {
    if k == 0 then b - b % 2 else 2 * NatWithoutBit(b / 2, k - 1) + b % 2
  }

  predicate HasBit(b: byte, k: nat) {
    NatBit(b, k)
  }

  function WithBit(b: byte, k: nat): (r: byte)
    requires k < 8
    ensures HasBit(r, k) && b <= r
  {
    Pow2Of8();
    WithBitFits(b, k, 8);
    NatWithBit(b, k)
  }

  function WithoutBit(b: byte, k: nat): (r: byte)
    requires k < 8
    ensures !HasBit(r, k) && r <= b
  {
    NatWithoutBit(b, k)
  }

  /** Setting or clearing one bit leaves the others alone. */
  lemma {:induction false} OtherBits(b: nat, k: nat, j: nat)
    requires j != k
    ensures NatBit(NatWithBit(b, k), j) == NatBit(b, j)
    ensures NatBit(NatWithoutBit(b, k), j) == NatBit(b, j)
  {
    var r, z := NatWithBit(b, k), NatWithoutBit(b, k);
    if k == 0 {
      assert r / 2 == b / 2 && z / 2 == b / 2;
    } else {
      assert r % 2 == b % 2 && z % 2 == b % 2;
      if j > 0 {
        assert r / 2 == NatWithBit(b / 2, k - 1) && z / 2 == NatWithoutBit(b / 2, k - 1);
        OtherBits(b / 2, k - 1, j - 1);
      }
    }
  }

  /** Setting a bit that is set, or clearing one that is clear, changes nothing. */
  lemma {:induction false} SameBit(b: nat, k: nat)
    ensures NatBit(b, k) ==> NatWithBit(b, k) == b
    ensures !NatBit(b, k) ==> NatWithoutBit(b, k) == b && NatWithBit(b, k) != b
  {
    if k > 0 {
      SameBit(b / 2, k - 1);
    }
  }

  lemma {:induction false} ZeroHasNoBit(k: nat)
    ensures !NatBit(0, k)
  {
    if k > 0 {
      ZeroHasNoBit(k - 1);
    }
  }

  lemma FullHasBit(k: nat)
    requires k < 8
    ensures HasBit(255, k)
  {
    assert NatBit(15, 0) && NatBit(15, 1) && NatBit(15, 2) && NatBit(15, 3);
    assert k >= 4 ==>
        NatBit(255, k) == NatBit(127, k - 1) == NatBit(63, k - 2) == NatBit(31, k - 3) == NatBit(15, k - 4);
  }

  /** Bit 0 is the lowest one. */
  lemma BitExamples()
    ensures HasBit(1, 0) && !HasBit(1, 7) && HasBit(128, 7) && !HasBit(128, 0)
    ensures WithBit(0, 0) == 1 && WithBit(0, 3) == 8 && WithoutBit(255, 1) == 253
  {
    assert NatBit(128, 7) == NatBit(64, 6) == NatBit(32, 5) == NatBit(16, 4) == NatBit(8, 3) == NatBit(4, 2);
    ZeroHasNoBit(6);
  }

  /** Bit `i` of a byte string; false past the end. */
  predicate BitAt(s: seq<byte>, i: nat) {
    i / 8 < |s| && HasBit(s[i / 8], i % 8)
  }

  function Zeros(n: nat): (z: seq<byte>)
    ensures |z| == n && forall i :: 0 <= i < n ==> z[i] == 0
  {
    seq(n, _ => 0)
  }

  /** The plain byte string with bit `i` set, grown with zero bytes if it has to be. */
  function SetBitAt(s: seq<byte>, i: nat): (r: seq<byte>)
    ensures i / 8 < |r| && |s| <= |r|
  {
    var t := if i / 8 < |s| then s else s + Zeros(i / 8 + 1 - |s|);
    t[i / 8 := WithBit(t[i / 8], i % 8)]
  }

  lemma SetBitAtSets(s: seq<byte>, i: nat, j: nat)
    ensures BitAt(SetBitAt(s, i), j) == (j == i || BitAt(s, j))
  {
    if j / 8 == i / 8 && j != i {
      OtherBits(if i / 8 < |s| then s[i / 8] else 0, i % 8, j % 8);
    }
    ZeroHasNoBit(j % 8);
  }

  /** A little-endian 16-bit word. */
  function Word(lo: byte, hi: byte): (w: nat)
    ensures w < 0x10000
  {
    lo + 256 * hi
  }

  function LowByte(w: nat): byte {
    w % 256
  }

  function HighByte(w: nat): byte {
    w / 256 % 256
  }

  lemma Assoc(a: seq<byte>, b: seq<byte>, c: seq<byte>)
    ensures a + (b + c) == a + b + c
  {
  }
}
