/**
 The word-wise XOR of `BaseLayer/SFEncryptionXOR.cpp`, in place, on little-endian 32-bit words.
*/
module XorCipher {

  const KEY: bv32 := 0xAFB7E3D9

  function KeyByte(k: nat): bv8 {
    if k == 0 then 0xD9 else if k == 1 then 0xE3 else if k == 2 then 0xB7 else 0xAF
  }

  function CryptByte(b: bv8, k: nat): bv8 {
    b ^ KeyByte(k)
  }

  /** Every byte of a whole word changed by its byte of the key; up to three bytes at the end stay as they are. */
  function Crypt(s: seq<bv8>): (r: seq<bv8>)
    ensures |r| == |s|
  {
    seq(|s|, i requires 0 <= i < |s| => if i < |s| - |s| % 4 then CryptByte(s[i], i % 4) else s[i])
  }

  lemma XorTwice(b: bv8, k: nat)
    ensures CryptByte(CryptByte(b, k), k) == b
  {
  }

  /** Encrypting twice gives the bytes back. */
  lemma CryptTwice(s: seq<bv8>)
    ensures Crypt(Crypt(s)) == s
  {
    forall i | 0 <= i < |s|
      ensures Crypt(Crypt(s))[i] == s[i]
    {
      XorTwice(s[i], i % 4);
    }
  }

  lemma CryptIs(s: seq<bv8>, r: seq<bv8>)
    requires |r| == |s|
    requires forall k :: 0 <= k < |s| - |s| % 4 ==> r[k] == CryptByte(s[k], k % 4)
    requires forall k :: |s| - |s| % 4 <= k < |s| ==> r[k] == s[k]
    ensures r == Crypt(s)
  {
    hide CryptByte;
  }

  // ---------- Words in memory ----------

  function Load(b0: bv8, b1: bv8, b2: bv8, b3: bv8): bv32 {
    (b0 as bv32) | ((b1 as bv32) << 8) | ((b2 as bv32) << 16) | ((b3 as bv32) << 24)
  }

  function ByteOf(w: bv32, k: nat): bv8 {
    if k == 0 then (w & 0xFF) as bv8
    else if k == 1 then ((w >> 8) & 0xFF) as bv8
    else if k == 2 then ((w >> 16) & 0xFF) as bv8
    else ((w >> 24) & 0xFF) as bv8
  }

  function CryptWord(b0: bv8, b1: bv8, b2: bv8, b3: bv8): bv32 {
    Load(b0, b1, b2, b3) ^ KEY
  }

  /** A word changed by the key is its four bytes changed by theirs. */
  lemma WordIsBytes(b0: bv8, b1: bv8, b2: bv8, b3: bv8)
    ensures var w := CryptWord(b0, b1, b2, b3);
            && ByteOf(w, 0) == CryptByte(b0, 0) && ByteOf(w, 1) == CryptByte(b1, 1)
            && ByteOf(w, 2) == CryptByte(b2, 2) && ByteOf(w, 3) == CryptByte(b3, 3)
  {
  }

  method EncryptWord(src: array<bv8>, i: nat)
    requires i + 4 <= src.Length
    modifies src
    ensures forall k :: i <= k < i + 4 ==> src[k] == CryptByte(old(src[k]), k - i)
    ensures forall k :: 0 <= k < src.Length && !(i <= k < i + 4) ==> src[k] == old(src[k])
  {
    hide CryptWord, ByteOf, CryptByte;
    WordIsBytes(src[i], src[i + 1], src[i + 2], src[i + 3]);
    var w := CryptWord(src[i], src[i + 1], src[i + 2], src[i + 3]);
    src[i], src[i + 1], src[i + 2], src[i + 3] := ByteOf(w, 0), ByteOf(w, 1), ByteOf(w, 2), ByteOf(w, 3);
  }

  /** `Encrypt` and `Decrypt`, which are the same loop. */
  method Encrypt(src: array<bv8>, length: nat)
    requires length <= src.Length
    modifies src
    ensures src[..] == Crypt(old(src[..length])) + old(src[length..])
  {
    hide CryptByte;
    var remain := length % 4;
    var whole := length - remain;
    var i := 0;
    while i < whole
      invariant 0 <= i <= whole && i % 4 == 0
      invariant forall k :: 0 <= k < i ==> src[k] == CryptByte(old(src[k]), k % 4)
      invariant forall k :: i <= k < src.Length ==> src[k] == old(src[k])
    {
      EncryptWord(src, i);
      i := i + 4;
    }
    CryptIs(old(src[..length]), src[..length]);
    assert src[..] == src[..length] + src[length..];
  }

  /** The key itself, lowest byte first, and bytes at the end that stay as they are. */
  lemma CryptExample()
    ensures Crypt([0, 0, 0, 0, 7, 8]) == [0xD9, 0xE3, 0xB7, 0xAF, 7, 8]
  {
    hide CryptByte;
    KeyBytes();
  }

  lemma KeyBytes()
    ensures CryptByte(0, 0) == 0xD9 && CryptByte(0, 1) == 0xE3 && CryptByte(0, 2) == 0xB7 && CryptByte(0, 3) == 0xAF
  {
  }
}
