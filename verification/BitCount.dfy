/** Counting and finding the ones of a byte string. */
module BitCount {
  import opened Bytes

  /** The number of ones at positions below `n`. */
  function Rank(s: seq<byte>, n: nat): (r: nat)
    ensures r <= n
  {
    if n == 0 then 0 else Rank(s, n - 1) + if BitAt(s, n - 1) then 1 else 0
  }

  function PopCount(s: seq<byte>): nat {
    Rank(s, 8 * |s|)
  }

  lemma RankStep(s: seq<byte>, n: nat)
    ensures Rank(s, n + 1) == Rank(s, n) + if BitAt(s, n) then 1 else 0
  {
  }

  lemma EmptyRank(s: seq<byte>)
    ensures Rank(s, 0) == 0
  {
  }

  /** Position `p` holds the `i`-th one, counted from zero. */
  predicate IsOne(s: seq<byte>, i: nat, p: nat) {
    BitAt(s, p) && Rank(s, p) == i
  }

  /** The ones of the byte 5, at positions 0 and 2. */
  lemma RankExample()
    ensures Rank([5], 0) == 0 && Rank([5], 1) == 1 && Rank([5], 2) == 1 && Rank([5], 3) == 2
    ensures IsOne([5], 0, 0) && IsOne([5], 1, 2)
  {
    assert BitAt([5], 0) && !BitAt([5], 1) && BitAt([5], 2);
    RankStep([5], 0);
    RankStep([5], 1);
    RankStep([5], 2);
    EmptyRank([5]);
  }

  lemma {:induction false} RankMonotone(s: seq<byte>, m: nat, n: nat)
    requires m <= n
    ensures Rank(s, m) <= Rank(s, n)
    decreases n
  {
    if m < n {
      RankMonotone(s, m, n - 1);
    }
  }

  /** Past the end there are no more ones. */
  lemma {:induction false} RankPastEnd(s: seq<byte>, n: nat)
    requires n >= 8 * |s|
    ensures Rank(s, n) == PopCount(s)
    decreases n
  {
    if n > 8 * |s| {
      RankPastEnd(s, n - 1);
    }
  }

  lemma {:induction false} RankAtMost(s: seq<byte>, n: nat)
    ensures Rank(s, n) <= PopCount(s)
  {
    if n <= 8 * |s| {
      RankMonotone(s, n, 8 * |s|);
    } else {
      RankPastEnd(s, n);
    }
  }

  /** There is only one `i`-th one. */
  lemma OneIsUnique(s: seq<byte>, i: nat, p: nat, q: nat)
    requires IsOne(s, i, p) && IsOne(s, i, q)
    ensures p == q
  {
    if p < q {
      RankMonotone(s, p + 1, q);
    } else if q < p {
      RankMonotone(s, q + 1, p);
    }
  }

  /** Finding the `i`-th one and counting up to a one undo each other. */
  lemma SelectAndRankInverse(s: seq<byte>, i: nat, p: nat)
    ensures IsOne(s, i, p) ==> Rank(s, p + 1) - 1 == i && i < PopCount(s)
    ensures BitAt(s, p) ==> Rank(s, p + 1) > 0 && IsOne(s, Rank(s, p + 1) - 1, p)
  {
    RankAtMost(s, p + 1);
  }

  /** The rank depends only on the bits. */
  lemma {:induction false} RankOfSameBits(s: seq<byte>, t: seq<byte>, n: nat)
    requires forall j: nat :: j < n ==> BitAt(s, j) == BitAt(t, j)
    ensures Rank(s, n) == Rank(t, n)
  {
    if n > 0 {
      RankOfSameBits(s, t, n - 1);
    }
  }

  /** If there are no ones from `m` to `n`, the rank does not grow. */
  lemma {:induction false} RankFlat(s: seq<byte>, m: nat, n: nat)
    requires m <= n && forall j: nat :: m <= j < n ==> !BitAt(s, j)
    ensures Rank(s, n) == Rank(s, m)
    decreases n
  {
    if m < n {
      RankFlat(s, m, n - 1);
    }
  }

  lemma {:induction false} NoBits(b: nat, n: nat)
    requires b < Pow2(n) && forall k: nat :: k < n ==> !NatBit(b, k)
    ensures b == 0
  {
    if n > 0 {
      assert !NatBit(b, 0);
      forall k: nat | k < n - 1
        ensures !NatBit(b / 2, k)
      {
        assert !NatBit(b, k + 1);
      }
      NoBits(b / 2, n - 1);
    }
  }

  lemma NoBitsInByte(b: byte)
    requires forall k: nat :: k < 8 ==> !NatBit(b, k)
    ensures b == 0
  {
    Pow2Of8();
    NoBits(b, 8);
  }

  // ---------- Counting byte by byte ----------

  /** The number of ones of a number: what the table of bit counts holds for a byte. */
  function Ones(b: nat): nat {
    if b == 0 then 0 else b % 2 + Ones(b / 2)
  }

  /** `b >> t`. */
  function Shifted(b: nat, t: nat): nat {
    if t == 0 then b else Shifted(b, t - 1) / 2
  }

  lemma {:induction false} ShiftInside(b: nat, t: nat)
    ensures Shifted(b, t + 1) == Shifted(b / 2, t)
  {
    if t > 0 {
      ShiftInside(b, t - 1);
    }
  }

  lemma {:induction false} BitOfShifted(b: nat, t: nat)
    ensures NatBit(b, t) == (Shifted(b, t) % 2 == 1)
  {
    if t > 0 {
      BitOfShifted(b / 2, t - 1);
      ShiftInside(b, t - 1);
    }
  }

  lemma ShiftedOut(b: byte)
    ensures Shifted(b, 8) == 0
  {
    assert Shifted(b, 1) < 128;
    assert Shifted(b, 2) < 64;
    assert Shifted(b, 3) < 32;
    assert Shifted(b, 4) < 16;
    assert Shifted(b, 5) < 8;
    assert Shifted(b, 6) < 4;
    assert Shifted(b, 7) < 2;
  }

  lemma {:induction false} ZeroStaysZero(b: nat, t: nat, u: nat)
    requires t <= u && Shifted(b, t) == 0
    ensures Shifted(b, u) == 0
    decreases u
  {
    if t < u {
      ZeroStaysZero(b, t, u - 1);
    }
  }

  /** The ones of a byte from bit `t` on, as far as its bit 8. */
  lemma {:induction false} RankInByte(s: seq<byte>, k: nat, t: nat)
    requires k < |s| && t <= 8
    ensures Rank(s, 8 * k + 8) == Rank(s, 8 * k + t) + Ones(Shifted(s[k], t))
    decreases 8 - t
  {
    if t == 8 {
      ShiftedOut(s[k]);
    } else {
      RankInByte(s, k, t + 1);
      BitOfByte(s, k, t);
    }
  }

  lemma ShiftNext(b: nat, t: nat)
    ensures Shifted(b, 0) == b && Shifted(b, t + 1) == Shifted(b, t) / 2
  {
  }

  lemma BitOfByte(s: seq<byte>, k: nat, t: nat)
    requires k < |s| && t < 8
    ensures BitAt(s, 8 * k + t) == (Shifted(s[k], t) % 2 == 1)
    ensures Rank(s, 8 * k + t + 1) == Rank(s, 8 * k + t) + Shifted(s[k], t) % 2
  {
    BitOfShifted(s[k], t);
    assert (8 * k + t) / 8 == k && (8 * k + t) % 8 == t;
  }

  // ---------- Sampling every `seg`-th one ----------

  /** `idx` lists the positions of the ones number 0, `seg`, 2 * `seg` and so on. */
  ghost predicate Samples(s: seq<byte>, seg: nat, idx: seq<nat>) {
    && seg > 0
    && (forall j :: 0 <= j < |idx| ==> IsSample(s, seg, idx, j))
    && PopCount(s) <= |idx| * seg
  }

  ghost predicate IsSample(s: seq<byte>, seg: nat, idx: seq<nat>, j: nat)
    requires j < |idx|
  {
    IsOne(s, j * seg, idx[j])
  }
}
