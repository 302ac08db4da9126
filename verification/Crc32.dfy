/**
 CRC-32 (section 8 of RFC 1952) by its definition, a shift register that is fed one bit of the
 message at a time, and which damage to a message it detects.
*/
module Crc32 {

  const POLY: bv32 := 0xEDB88320
  const ONES: bv32 := 0xFFFFFFFF
  const TOP: bv32 := 0x80000000

  // The bit operations have names of their own so that proofs about registers can hide them.

  function Xor(a: bv32, b: bv32): bv32 {
    a ^ b
  }

  function Half(a: bv32): bv32 {
    a >> 1
  }

  predicate Odd(a: bv32) {
    a & 1 == 1
  }

  predicate AtLeast(a: bv32, q: bv32) {
    a >= q
  }

  function Bit(b: bool): bv32 {
    if b then 1 else 0
  }

  // ---------- The shift register ----------

  function Feedback(r: bv32): bv32 {
    if Odd(r) then POLY else 0
  }

  /** One step of the register. */
  function Step(r: bv32): bv32 {
    Xor(Half(r), Feedback(r))
  }

  function Steps(r: bv32, n: nat): bv32 {
    if n == 0 then r else Step(Steps(r, n - 1))
  }

  function FeedBit(r: bv32, b: bool): bv32 {
    Step(Xor(r, Bit(b)))
  }

  /** The register after a message of single bits. */
  function Feed(r: bv32, w: seq<bool>): bv32 {
    if w == [] then r else FeedBit(Feed(r, w[..|w| - 1]), w[|w| - 1])
  }

  function Halved(x: bv32, n: nat): bv32 {
    if n == 0 then x else Half(Halved(x, n - 1))
  }

  /** The lowest `n` bits, lowest first. */
  function BitsOf(x: bv32, n: nat): (w: seq<bool>)
    ensures |w| == n
  {
    if n == 0 then [] else BitsOf(x, n - 1) + [Odd(Halved(x, n - 1))]
  }

  /** The bits of a message, lowest bit of each byte first. */
  function MessageBits(s: seq<bv8>): (w: seq<bool>)
    ensures |w| == 8 * |s|
  {
    if s == [] then [] else MessageBits(s[..|s| - 1]) + BitsOf(Value(s[|s| - 1]), 8)
  }

  /** The checksum, by its definition: the register starts with ones, and is inverted at the end. */
  function Crc(s: seq<bv8>): bv32 {
    Xor(Feed(ONES, MessageBits(s)), ONES)
  }

  // ---------- The register is linear and loses nothing ----------

  lemma XorHalf(a: bv32, b: bv32)
    ensures Half(Xor(a, b)) == Xor(Half(a), Half(b))
  {
  }

  lemma XorOdd(a: bv32, b: bv32)
    ensures Odd(Xor(a, b)) == (Odd(a) != Odd(b))
  {
    XorLow(a, b);
    LowBit(a);
    LowBit(b);
  }

  lemma XorLow(a: bv32, b: bv32)
    ensures (a ^ b) & 1 == (a & 1) ^ (b & 1)
  {
  }

  lemma LowBit(r: bv32)
    ensures r & 1 == 0 || r & 1 == 1
  {
  }

  lemma XorFeedback(a: bv32, b: bv32)
    ensures Feedback(Xor(a, b)) == Xor(Feedback(a), Feedback(b))
  {
    XorOdd(a, b);
    hide Odd;
  }

  lemma XorAssociative(a: bv32, b: bv32, c: bv32)
    ensures Xor(a, Xor(b, c)) == Xor(Xor(a, b), c)
  {
  }

  lemma XorCommutative(a: bv32, b: bv32)
    ensures Xor(a, b) == Xor(b, a)
  {
  }

  lemma Regroup(a: bv32, b: bv32, c: bv32, d: bv32)
    ensures Xor(Xor(a, b), Xor(c, d)) == Xor(Xor(a, c), Xor(b, d))
  {
    hide Xor;
    XorAssociative(a, b, Xor(c, d));
    XorAssociative(b, c, d);
    XorCommutative(b, c);
    XorAssociative(c, b, d);
    XorAssociative(a, c, Xor(b, d));
  }

  lemma StepLinear(a: bv32, b: bv32)
    ensures Step(Xor(a, b)) == Xor(Step(a), Step(b))
  {
    hide Xor, Half, Feedback;
    XorHalf(a, b);
    XorFeedback(a, b);
    Regroup(Half(a), Half(b), Feedback(a), Feedback(b));
  }

  lemma StepInjective(a: bv32, b: bv32)
    requires Step(a) == Step(b)
    ensures a == b
  {
  }

  lemma XorCancel(a: bv32, b: bv32, c: bv32)
    requires Xor(a, c) == Xor(b, c)
    ensures a == b
  {
  }

  /** Registers that differ stay different when fed the same bits. */
  lemma {:induction false} FeedInjective(a: bv32, b: bv32, w: seq<bool>)
    requires Feed(a, w) == Feed(b, w)
    ensures a == b
  {
    hide Xor, Step, Bit;
    if w != [] {
      var a', b', x := Feed(a, w[..|w| - 1]), Feed(b, w[..|w| - 1]), Bit(w[|w| - 1]);
      StepInjective(Xor(a', x), Xor(b', x));
      XorCancel(a', b', x);
      FeedInjective(a, b, w[..|w| - 1]);
    }
  }

  lemma {:induction false} FeedAppend(r: bv32, u: seq<bool>, v: seq<bool>)
    ensures Feed(r, u + v) == Feed(Feed(r, u), v)
  {
    hide FeedBit;
    if v == [] {
      assert u + v == u;
    } else {
      assert (u + v)[..|u + v| - 1] == u + v[..|v| - 1];
      FeedAppend(r, u, v[..|v| - 1]);
    }
  }

  // ---------- Bursts ----------

  lemma StepIsAbove(d: bv32)
    ensures AtLeast(Step(d), Half(d))
  {
    LowBit(d);
    if Odd(d) {
      StepOdd(d);
    }
  }

  lemma StepOdd(d: bv32)
    requires Odd(d)
    ensures Step(d) >= TOP > Half(d)
  {
  }

  lemma HalfMonotone(d: bv32, q: bv32)
    requires AtLeast(d, q)
    ensures AtLeast(Half(d), Half(q))
  {
  }

  lemma HalfDropsBits(d: bv32, x: bool, y: bool)
    ensures Half(Xor(d, Xor(Bit(x), Bit(y)))) == Half(d)
  {
  }

  lemma Transitive(a: bv32, b: bv32, c: bv32)
    requires AtLeast(a, b) && AtLeast(b, c)
    ensures AtLeast(a, c)
  {
  }

  /** The difference of two registers loses at most one place at the top with each bit they are fed. */
  lemma DifferenceFalls(a: bv32, b: bv32, x: bool, y: bool, q: bv32)
    requires AtLeast(Xor(a, b), q)
    ensures AtLeast(Xor(FeedBit(a, x), FeedBit(b, y)), Half(q))
  {
    hide Xor, Half, AtLeast, Step, Bit;
    var d := Xor(a, b);
    Regroup(a, Bit(x), b, Bit(y));
    StepLinear(Xor(a, Bit(x)), Xor(b, Bit(y)));
    HalfDropsBits(d, x, y);
    HalfMonotone(d, q);
    StepIsAbove(Xor(d, Xor(Bit(x), Bit(y))));
    Transitive(Xor(FeedBit(a, x), FeedBit(b, y)), Half(d), Half(q));
  }

  /** Two registers whose difference is high stay different for a while, whatever they are fed. */
  lemma {:induction false} StayApart(a: bv32, b: bv32, u: seq<bool>, v: seq<bool>, q: bv32)
    requires |u| == |v| && AtLeast(Xor(a, b), q)
    ensures AtLeast(Xor(Feed(a, u), Feed(b, v)), Halved(q, |u|))
  {
    hide FeedBit, Xor, AtLeast, Half;
    if u != [] {
      var n := |u| - 1;
      StayApart(a, b, u[..n], v[..n], q);
      DifferenceFalls(Feed(a, u[..n]), Feed(b, v[..n]), u[n], v[n], Halved(q, n));
    }
  }

  /** After one bit that differs, the difference has its highest bit set. */
  lemma FirstDifference(r: bv32, x: bool, y: bool)
    requires x != y
    ensures AtLeast(Xor(FeedBit(r, x), FeedBit(r, y)), TOP)
  {
    StepOfOne();
    SelfCancels(r, x, y);
    hide Step, Xor, Bit, AtLeast;
    Regroup(r, Bit(x), r, Bit(y));
    StepLinear(Xor(r, Bit(x)), Xor(r, Bit(y)));
  }

  lemma SelfCancels(r: bv32, x: bool, y: bool)
    requires x != y
    ensures Xor(Xor(r, r), Xor(Bit(x), Bit(y))) == 1
  {
  }

  lemma StepOfOne()
    ensures AtLeast(Step(1), TOP)
  {
  }

  lemma HalvedEight(x: bv32, n: nat)
    ensures Halved(x, n + 8) == Halved(x, n) >> 8
  {
    HalvedLast(x, n);
    HalvedLast(x, n + 1);
    HalvedLast(x, n + 2);
    HalvedLast(x, n + 3);
    HalvedLast(x, n + 4);
    HalvedLast(x, n + 5);
    HalvedLast(x, n + 6);
    HalvedLast(x, n + 7);
    hide Halved;
  }

  lemma HalvedLast(x: bv32, n: nat)
    ensures Halved(x, n + 1) == Halved(x, n) >> 1
  {
  }

  /** The highest bit takes 32 places to fall out. */
  lemma HalvedTop(n: nat)
    requires n <= 31
    ensures Halved(TOP, n) != 0
    decreases 31 - n
  {
    if n < 31 {
      HalvedTop(n + 1);
      HalvedLast(TOP, n);
    } else {
      HalvedEight(TOP, 0);
      HalvedEight(TOP, 8);
      HalvedEight(TOP, 16);
      var h := Halved(TOP, 24);
      assert h == TOP >> 8 >> 8 >> 8;
      HalvedLast(TOP, 24);
      HalvedLast(TOP, 25);
      HalvedLast(TOP, 26);
      HalvedLast(TOP, 27);
      HalvedLast(TOP, 28);
      HalvedLast(TOP, 29);
      HalvedLast(TOP, 30);
    }
  }

  lemma {:induction false} FirstDiff(u: seq<bool>, v: seq<bool>) returns (i: nat)
    requires |u| == |v| && u != v
    ensures i < |u| && u[i] != v[i] && u[..i] == v[..i]
  {
    var n := |u| - 1;
    if u[..n] == v[..n] {
      i := n;
      assert u == u[..n] + [u[n]] && v == v[..n] + [v[n]];
    } else {
      i := FirstDiff(u[..n], v[..n]);
      assert u[..n][..i] == u[..i] && v[..n][..i] == v[..i];
    }
  }

  /** Windows of at most 32 bits that differ leave registers that differ. */
  lemma WindowsDiffer(r: bv32, u: seq<bool>, v: seq<bool>)
    requires |u| == |v| <= 32 && u != v
    ensures Feed(r, u) != Feed(r, v)
  {
    hide FeedBit, Feed, Halved, Xor, AtLeast;
    var i := FirstDiff(u, v);
    var c := Feed(r, u[..i]);
    FirstDifference(c, u[i], v[i]);
    SplitFeed(r, u, i);
    SplitFeed(r, v, i);
    StayApart(FeedBit(c, u[i]), FeedBit(c, v[i]), u[i + 1..], v[i + 1..], TOP);
    HalvedTop(|u| - i - 1);
    ApartDiffer(Feed(r, u), Feed(r, v), Halved(TOP, |u| - i - 1));
  }

  lemma ApartDiffer(a: bv32, b: bv32, q: bv32)
    requires AtLeast(Xor(a, b), q) && q != 0
    ensures a != b
  {
  }

  lemma SplitFeed(r: bv32, w: seq<bool>, i: nat)
    requires i < |w|
    ensures Feed(r, w) == Feed(FeedBit(Feed(r, w[..i]), w[i]), w[i + 1..])
  {
    hide FeedBit;
    assert w == w[..i + 1] + w[i + 1..];
    FeedAppend(r, w[..i + 1], w[i + 1..]);
    assert w[..i + 1][..i] == w[..i];
  }

  /** Messages of bits that differ only inside a window of 32 bits leave registers that differ. */
  lemma BurstInBits(r: bv32, s: seq<bool>, t: seq<bool>, k: nat)
    requires |s| == |t| && s != t
    requires forall i :: 0 <= i < |s| && (i < k || i >= k + 32) ==> s[i] == t[i]
    ensures Feed(r, s) != Feed(r, t)
  {
    hide Feed;
    var a := if k < |s| then k else |s|;
    var b := if k + 32 < |s| then k + 32 else |s|;
    assert s == s[..a] + s[a..b] + s[b..] && t == t[..a] + t[a..b] + t[b..];
    assert s[..a] == t[..a] && s[b..] == t[b..];
    assert s[a..b] != t[a..b];
    FeedThree(r, s[..a], s[a..b], s[b..]);
    FeedThree(r, t[..a], t[a..b], t[b..]);
    var c := Feed(r, s[..a]);
    WindowsDiffer(c, s[a..b], t[a..b]);
    if Feed(r, s) == Feed(r, t) {
      FeedInjective(Feed(c, s[a..b]), Feed(c, t[a..b]), s[b..]);
    }
  }

  lemma FeedThree(r: bv32, u: seq<bool>, v: seq<bool>, w: seq<bool>)
    ensures Feed(r, u + v + w) == Feed(Feed(Feed(r, u), v), w)
  {
    FeedAppend(r, u + v, w);
    FeedAppend(r, u, v);
  }

  // ---------- Bytes ----------

  /** A byte fed bit by bit does what the byte added to the register and eight steps do. */
  lemma {:induction false} FeedIsSteps(r: bv32, x: bv32, n: nat)
    ensures Steps(Xor(r, x), n) == Xor(Feed(r, BitsOf(x, n)), Halved(x, n))
  {
    hide Xor, Half, Odd, Step;
    if n > 0 {
      FeedIsSteps(r, x, n - 1);
      var f, h := Feed(r, BitsOf(x, n - 1)), Halved(x, n - 1);
      StepOfXor(f, h);
      assert BitsOf(x, n)[..n - 1] == BitsOf(x, n - 1);
    }
  }

  /** All but the lowest bit of what is added only moves down one place. */
  lemma StepOfXor(r: bv32, h: bv32)
    ensures Step(Xor(r, h)) == Xor(FeedBit(r, Odd(h)), Half(h))
  {
    RestMovesDown(h);
    hide Xor, Step, Half;
    var low, rest := Bit(Odd(h)), h & !1;
    XorAssociative(r, low, rest);
    StepLinear(Xor(r, low), rest);
  }

  lemma RestMovesDown(h: bv32)
    ensures h == Xor(Bit(Odd(h)), h & !1) && Step(h & !1) == Half(h)
  {
    LowBit(h);
  }

  function Value(b: bv8): bv32 {
    b as bv32
  }

  lemma ByteFits(b: bv8)
    ensures Halved(Value(b), 8) == 0
  {
    HalvedEight(Value(b), 0);
  }

  lemma ByteFeeds(r: bv32, b: bv8)
    ensures Feed(r, BitsOf(Value(b), 8)) == Steps(Xor(r, Value(b)), 8)
  {
    FeedIsSteps(r, Value(b), 8);
    ByteFits(b);
    hide Feed, Steps, BitsOf, Halved, Value;
    XorZero(Feed(r, BitsOf(Value(b), 8)));
  }

  lemma XorZero(a: bv32)
    ensures Xor(a, 0) == a
  {
  }

  lemma {:induction false} MessageAppend(s: seq<bv8>, t: seq<bv8>)
    ensures MessageBits(s + t) == MessageBits(s) + MessageBits(t)
  {
    if t == [] {
      assert s + t == s;
    } else {
      assert (s + t)[..|s + t| - 1] == s + t[..|t| - 1];
      hide BitsOf, Value;
      MessageAppend(s, t[..|t| - 1]);
    }
  }

  lemma OneByte(b: bv8)
    ensures MessageBits([b]) == BitsOf(Value(b), 8)
  {
    hide BitsOf, Value;
    assert [b][..0] == [];
    assert MessageBits([b]) == MessageBits([b][..0]) + BitsOf(Value(b), 8);
  }

  lemma {:induction false} StepsInjective(a: bv32, b: bv32, n: nat)
    requires Steps(a, n) == Steps(b, n)
    ensures a == b
  {
    hide Step;
    if n > 0 {
      StepInjective(Steps(a, n - 1), Steps(b, n - 1));
      StepsInjective(a, b, n - 1);
    }
  }

  /** Different bytes have different bits. */
  lemma ByteBitsInjective(x: bv8, y: bv8)
    requires BitsOf(Value(x), 8) == BitsOf(Value(y), 8)
    ensures x == y
  {
    ByteFeeds(0, x);
    ByteFeeds(0, y);
    XorCommutative(0, Value(x));
    XorCommutative(0, Value(y));
    XorZero(Value(x));
    XorZero(Value(y));
    hide Feed, Steps, BitsOf, Xor;
    StepsInjective(Value(x), Value(y), 8);
  }

  lemma {:induction false} MessageInjective(s: seq<bv8>, t: seq<bv8>)
    requires |s| == |t| && MessageBits(s) == MessageBits(t)
    ensures s == t
  {
    if s != [] {
      hide BitsOf, Value;
      var n := |s| - 1;
      var u, v := BitsOf(Value(s[n]), 8), BitsOf(Value(t[n]), 8);
      assert MessageBits(s)[8 * n..] == u && MessageBits(t)[8 * n..] == v;
      assert MessageBits(s)[..8 * n] == MessageBits(s[..n]) && MessageBits(t)[..8 * n] == MessageBits(t[..n]);
      ByteBitsInjective(s[n], t[n]);
      MessageInjective(s[..n], t[..n]);
      assert s == s[..n] + [s[n]] && t == t[..n] + [t[n]];
    }
  }

  /** Two messages of the same length that differ, but only inside the 32 consecutive bits from `k` on. */
  ghost predicate Burst(s: seq<bv8>, t: seq<bv8>, k: nat) {
    && |s| == |t| && s != t
    && forall i :: 0 <= i < 8 * |s| && (i < k || i >= k + 32) ==> MessageBits(s)[i] == MessageBits(t)[i]
  }

  /**
   Every burst of at most 32 bits changes the checksum: two messages of the same length that
   differ, but only inside a window of 32 consecutive bits, have different checksums.
  */
  lemma BurstsAreDetected(s: seq<bv8>, t: seq<bv8>, k: nat)
    requires Burst(s, t, k)
    ensures Crc(s) != Crc(t)
  {
    hide MessageBits, Feed, Xor;
    if MessageBits(s) == MessageBits(t) {
      MessageInjective(s, t);
    }
    BurstInBits(ONES, MessageBits(s), MessageBits(t), k);
    if Crc(s) == Crc(t) {
      XorCancel(Feed(ONES, MessageBits(s)), Feed(ONES, MessageBits(t)), ONES);
    }
  }

  /** So do changes of up to four bytes in a row, and of one byte in particular. */
  lemma FourBytesAreDetected(p: seq<bv8>, u: seq<bv8>, v: seq<bv8>, q: seq<bv8>)
    requires |u| == |v| <= 4 && u != v
    ensures Crc(p + u + q) != Crc(p + v + q)
  {
    hide MessageBits, Crc;
    MessageAppend(p + u, q);
    MessageAppend(p, u);
    MessageAppend(p + v, q);
    MessageAppend(p, v);
    assert (p + u + q)[|p|..|p| + |u|] == u && (p + v + q)[|p|..|p| + |u|] == v;
    BurstsAreDetected(p + u + q, p + v + q, 8 * |p|);
  }
}
