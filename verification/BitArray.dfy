/** `SFBitArray` on plain bytes: single bits, ranges, cached counts, the sampled index, and bit shifts. */
module BitArray {
  import opened Bytes
  import opened BitCount
  import opened Memory

  const SEG_COUNT := 10240

  class BitArray {
    /** The whole allocated block; an empty one stands for the null pointer. */
    var buffer: array<byte>
    var length: nat
    var allocLength: nat
    var count: int
    var indexed: bool
    var indexes: seq<nat>
    var bitSeg: nat

    ghost function Plain(): seq<byte>
      requires length <= buffer.Length
      reads this`buffer, this`length, buffer
    {
      buffer[..length]
    }

    /** Bit `i`; the array goes on with zeros for ever. */
    ghost predicate Bit(i: nat)
      requires length <= buffer.Length
      reads this`buffer, this`length, buffer
    {
      BitAt(Plain(), i)
    }

    /** The block: what lies past the bytes in use is zero. */
    ghost predicate Block()
      reads this`buffer, this`length, this`allocLength, buffer
    {
      && length <= allocLength <= buffer.Length
      && forall i :: length <= i < buffer.Length ==> buffer[i] == 0
    }

    /** The caches are empty or right. */
    ghost predicate Caches()
      requires length <= buffer.Length
      reads this, buffer
    {
      && (count == -1 || count == PopCount(Plain()))
      && (indexed ==> Samples(Plain(), bitSeg, indexes))
    }

    ghost predicate Valid()
      reads this, buffer
    {
      Block() && Caches()
    }

    constructor ()
      ensures Valid() && Plain() == []
    {
      buffer := new byte[0];
      length, allocLength, count, indexed, indexes, bitSeg := 0, 0, -1, false, [], 1;
    }

    /** Forgets the cached count and index. */
    method SetModified()
      requires Block()
      modifies this`count, this`indexed
      ensures Valid() && count == -1 && !indexed
    {
      count := -1;
      indexed := false;
    }

    method GetAt(n: nat) returns (b: bool)
      requires length <= buffer.Length
      ensures b == Bit(n)
    {
      if n >= length * 8 {
        return false;
      }
      return HasBit(buffer[n / 8], n % 8);
    }

    /**
     Makes the array longer, by zero bytes, or shorter; no bytes give the block and the caches up.
     A shorter array keeps its caches and the bytes past its end, so it stays valid if and only
     if the bytes that were cut off are zero.
    */
    method SetLength(n: nat)
      requires Block()
      modifies this
      ensures length == n <= buffer.Length && (buffer == old(buffer) || fresh(buffer))
      ensures n == 0 ==> Valid() && count == -1 && !indexed
      ensures n > 0 ==> count == old(count) && indexed == old(indexed)
      ensures n > 0 ==> indexes == old(indexes) && bitSeg == old(bitSeg)
      ensures n >= old(length) ==> Block() && forall i: nat :: Bit(i) == old(Bit(i))
      ensures 0 < n < old(length) ==> buffer == old(buffer) && Plain() == old(Plain())[..n]
      ensures old(Caches()) ==> (Valid() <==> n == 0 || forall k :: n <= k < old(length) ==> old(Plain())[k] == 0)
    {
      ghost var was := Plain();
      if n == 0 {
        FreeBuffer();
        NothingSet(was);
        return;
      }
      if n > allocLength {
        allocLength := n + 100;
        buffer := ReAllocPtr(buffer, allocLength);
      }
      length := n;
      assert |was| <= n ==> forall i :: 0 <= i < n ==> Plain()[i] == if i < |was| then was[i] else 0;
      hide PopCount, Samples;
      if |was| <= n {
        SameBitsLonger(was, Plain());
        SameCaches(was, Plain(), bitSeg, indexes);
        SameCaches(Plain(), was, bitSeg, indexes);
      } else if forall k :: n <= k < |was| ==> was[k] == 0 {
        SameBitsLonger(Plain(), was);
        SameCaches(was, Plain(), bitSeg, indexes);
      }
    }

    /** Gives the block and the caches up. */
    method FreeBuffer()
      modifies this
      ensures fresh(buffer) && Valid() && length == 0 && count == -1 && !indexed
    {
      buffer := new byte[0];
      length, allocLength, count, indexed, indexes := 0, 0, -1, false, [];
    }

    /** Writes bit `n` without touching the caches. */
    method PutBit(n: nat, b: bool)
      requires Block() && n < length * 8
      modifies buffer
      ensures Block() && forall i: nat :: Bit(i) == if i == n then b else old(Bit(i))
    {
      ghost var was := Plain();
      if b {
        buffer[n / 8] := WithBit(buffer[n / 8], n % 8);
      } else {
        buffer[n / 8] := WithoutBit(buffer[n / 8], n % 8);
      }
      PutBitBits(was, n, b);
      assert Plain() == PutBitIn(was, n, b);
    }

    method SetAt(n: nat)
      requires Valid()
      modifies this, buffer
      ensures Valid() && (buffer == old(buffer) || fresh(buffer))
      ensures length == if n / 8 < old(length) then old(length) else n / 8 + 1
      ensures n < old(length) * 8 ==> buffer == old(buffer) && allocLength == old(allocLength)
      ensures count == -1 && !indexed && forall i: nat :: Bit(i) == (i == n || old(Bit(i)))
    {
      if n >= length * 8 {
        SetLength(n / 8 + 1);
      }
      PutBit(n, true);
      SetModified();
    }

    method ResetAt(n: nat)
      requires Valid()
      modifies this`count, this`indexed, buffer
      ensures Valid() && count == -1 && !indexed && forall i: nat :: Bit(i) == (i != n && old(Bit(i)))
    {
      ghost var was := Plain();
      if n < length * 8 {
        PutBit(n, false);
      }
      SetModified();
    }

    method XOrAt(n: nat)
      requires Valid()
      modifies this, buffer
      ensures Valid() && (buffer == old(buffer) || fresh(buffer))
      ensures length == if n / 8 < old(length) then old(length) else n / 8 + 1
      ensures forall i: nat :: Bit(i) == if i == n then !old(Bit(i)) else old(Bit(i))
    {
      if n >= length * 8 {
        SetLength(n / 8 + 1);
      }
      var b := GetAt(n);
      PutBit(n, !b);
      SetModified();
    }

    /** Sets the bits from `start` to `end`, both included. */
    method SetRange(start: nat, end: int)
      requires Block()
      modifies this, buffer
      ensures Valid() && (buffer == old(buffer) || fresh(buffer))
      ensures length == if end < old(length) * 8 then old(length) else end / 8 + 1
      ensures forall i: nat :: Bit(i) == (start <= i <= end || old(Bit(i)))
    {
      if end >= length * 8 {
        SetLength(end / 8 + 1);
      }
      var n := start;
      while n <= end
        invariant start <= n && (n <= end + 1 || n == start)
        invariant Block() && (buffer == old(buffer) || fresh(buffer)) && end < length * 8
        invariant length == if end < old(length) * 8 then old(length) else end / 8 + 1
        invariant forall i: nat :: Bit(i) == (start <= i < n || old(Bit(i)))
      {
        PutBit(n, true);
        n := n + 1;
      }
      SetModified();
    }

    /** Clears the bits from `start` to `end`, both included, as far as the array reaches. */
    method ResetRange(start: nat, end: int)
      requires Block()
      modifies this`count, this`indexed, buffer
      ensures Valid() && count == -1 && !indexed
      ensures forall i: nat :: Bit(i) == (!(start <= i <= end) && old(Bit(i)))
    {
      var last := if end >= length * 8 then length * 8 - 1 else end;
      var n := start;
      while n <= last
        invariant start <= n && (n <= last + 1 || n == start)
        invariant Block()
        invariant forall i: nat :: Bit(i) == (!(start <= i < n) && old(Bit(i)))
      {
        PutBit(n, false);
        n := n + 1;
      }
      SetModified();
    }

    /** Inverts the bits from `start` to `end`, both included. */
    method XOrRange(start: nat, end: int)
      requires Valid()
      modifies this, buffer
      ensures Valid() && (buffer == old(buffer) || fresh(buffer))
      ensures length == if end < old(length) * 8 then old(length) else end / 8 + 1
      ensures forall i: nat :: Bit(i) == (old(Bit(i)) != (start <= i <= end))
    {
      if end >= length * 8 {
        SetLength(end / 8 + 1);
      }
      var n := start;
      while n <= end
        invariant start <= n && (n <= end + 1 || n == start)
        invariant Block() && (buffer == old(buffer) || fresh(buffer)) && end < length * 8
        invariant length == if end < old(length) * 8 then old(length) else end / 8 + 1
        invariant forall i: nat :: Bit(i) == (old(Bit(i)) != (start <= i < n))
      {
        var b := GetAt(n);
        PutBit(n, !b);
        n := n + 1;
      }
      SetModified();
    }

    /** Clears the bits that are set in the other array, which may be this one. */
    method ResetOthers(other: BitArray)
      requires Valid() && other.Valid() && (other == this || other.buffer != buffer)
      modifies this`count, this`indexed, buffer
      ensures Valid() && count == -1 && !indexed
      ensures forall i: nat :: Bit(i) == (old(Bit(i)) && !old(other.Bit(i)))
    {
      NoBitsPastEnd();
      other.NoBitsPastEnd();
      hide BitAt;
      var last := (if length < other.length then length else other.length) * 8;
      for n := 0 to last
        modifies buffer
        invariant Block() && other.Block()
        invariant forall i: nat :: i >= n ==> other.Bit(i) == old(other.Bit(i))
        invariant forall i: nat :: Bit(i) == (old(Bit(i)) && !(i < n && old(other.Bit(i))))
      {
        var one := other.GetAt(n);
        if one {
          PutBit(n, false);
        }
      }
      SetModified();
    }

    /** The number of ones, from the cache if it is filled. */
    method GetCount() returns (n: nat)
      requires Valid()
      modifies this`count
      ensures Valid() && n == PopCount(Plain()) && count == n
    {
      if count == -1 {
        CountOnes();
      }
      n := count;
    }

    method CountOnes()
      requires Block()
      modifies this`count
      ensures count == PopCount(Plain())
    {
      count := 0;
      assert length <= buffer.Length;
      ghost var s := Plain();
      hide Rank, Block;
      EmptyRank(s);
      var nByte := 0;
      while nByte < length
        invariant nByte <= length && Plain() == s && count == Rank(s, 8 * nByte)
      {
        RankInByte(s, nByte, 0);
        if buffer[nByte] != 0 {
          count := count + Ones(buffer[nByte]);
        }
        nByte := nByte + 1;
      }
    }

    /** Builds the table of the positions of every `bitSeg`-th one. */
    method Index()
      requires Valid()
      modifies this`count, this`indexed, this`indexes, this`bitSeg
      ensures Valid() && (length > 0 ==> indexed && count == PopCount(Plain()))
      ensures length > 0 ==>
                bitSeg == PopCount(Plain()) / 10240 + 1 && (|indexes| - 1) * bitSeg < count <= |indexes| * bitSeg
      ensures length == 0 ==> unchanged(this)
    {
      if length == 0 {
        return;
      }
      var total := GetCount();
      bitSeg := total / SEG_COUNT + 1;
      indexes, count, indexed := [], 0, false;
      FillIndex();
      indexed := true;
    }

    method FillIndex()
      requires Block() && indexes == [] && count == 0 && bitSeg > 0
      modifies this`count, this`indexes
      ensures Samples(Plain(), bitSeg, indexes) && count == PopCount(Plain())
      ensures (|indexes| - 1) * bitSeg < count <= |indexes| * bitSeg
    {
      assert length <= buffer.Length;
      ghost var s := Plain();
      NothingSampled(s, bitSeg);
      hide Rank, Sampled, Samples, Block, PopCount;
      var nByte := 0;
      while nByte < length
        invariant Block() && Plain() == s && nByte <= length
        invariant Sampled(s, 8 * nByte, bitSeg, count, indexes)
      {
        if buffer[nByte] != 0 {
          IndexByte(nByte);
        } else {
          RankInByte(s, nByte, 0);
          SampleSame(s, 8 * nByte, 8 * nByte + 8, bitSeg, count, indexes);
        }
        nByte := nByte + 1;
      }
      AllSampled(s, bitSeg, count, indexes);
    }

    /** Samples the ones of one byte. */
    method IndexByte(nByte: nat)
      requires length <= buffer.Length && nByte < length && Sampled(Plain(), 8 * nByte, bitSeg, count, indexes)
      modifies this`count, this`indexes
      ensures Sampled(Plain(), 8 * nByte + 8, bitSeg, count, indexes)
    {
      ghost var s, t := Plain(), 0;
      var bits: nat, nBit: nat := buffer[nByte], nByte * 8;
      ShiftNext(bits, 0);
      hide Sampled, BitAt, Rank, Shifted;
      while bits != 0
        invariant t <= 8 && nBit == 8 * nByte + t && bits == Shifted(s[nByte], t) && count >= 0
        invariant Sampled(s, nBit, bitSeg, count, indexes)
        decreases 8 - t
      {
        if t == 8 {
          ShiftedOut(s[nByte]);
        }
        BitOfByte(s, nByte, t);
        ShiftNext(s[nByte], t);
        SampledSegments(s, nBit, bitSeg, count, indexes);
        if bits % 2 == 1 {
          SampleBit(nBit, s);
        } else {
          SampleSkip(s, nBit, bitSeg, count, indexes);
        }
        bits := bits / 2;
        nBit := nBit + 1;
        t := t + 1;
      }
      RankInByte(s, nByte, t);
      SampleSame(s, nBit, 8 * nByte + 8, bitSeg, count, indexes);
    }

    /** Counts a one, and samples it if it is the first of its segment. */
    method SampleBit(nBit: nat, ghost s: seq<byte>)
      requires Sampled(s, nBit, bitSeg, count, indexes) && BitAt(s, nBit) && count >= 0 && bitSeg > 0
      modifies this`count, this`indexes
      ensures Sampled(s, nBit + 1, bitSeg, count, indexes) && count > 0
    {
      hide Sampled, BitAt;
      SampleNext(s, nBit, bitSeg, count, indexes);
      if count % bitSeg == 0 {
        indexes := indexes + [nBit];
      }
      count := count + 1;
    }

    /** The position of the `i`-th one, or -1 if there are not that many. */
    method GetIndexBit(i: int) returns (p: int)
      requires Valid()
      modifies this`count, this`indexed, this`indexes, this`bitSeg
      ensures Valid()
      ensures if 0 <= i < PopCount(Plain()) then p >= 0 && IsOne(Plain(), i, p) else p == -1
    {
      hide Block, Caches, Samples, PopCount, Rank, BitAt;
      if i <= -1 {
        return -1;
      }
      BlockBounds();
      var total := GetCount();
      if i >= total {
        return -1;
      }
      if !indexed {
        LengthOfOnes(i);
        Index();
      }
      TableIsRight();
      SampleOf(Plain(), bitSeg, indexes, i);
      var nMapIndex := i / bitSeg;
      if bitSeg == 1 {
        return indexes[i];
      }
      p := Walk(indexes[nMapIndex], i % bitSeg, i);
    }

    lemma TableIsRight()
      requires Valid() && indexed
      ensures length <= buffer.Length && Samples(Plain(), bitSeg, indexes)
    {
    }

    lemma LengthOfOnes(i: nat)
      requires length <= buffer.Length && i < PopCount(Plain())
      ensures length > 0
    {
    }

    /** From the one at `bit`, walks `reminder` ones further. */
    method Walk(bit: nat, reminder: nat, ghost i: nat) returns (p: nat)
      requires length <= buffer.Length && BitAt(Plain(), bit)
      requires Rank(Plain(), bit + 1) + reminder == i + 1 && i < PopCount(Plain())
      ensures IsOne(Plain(), i, p)
    {
      ghost var s := Plain();
      hide Rank, BitAt;
      p := bit;
      var left, nMaxBit := reminder, length * 8;
      while left > 0
        invariant Rank(s, p + 1) + left == i + 1 && (left == 0 ==> BitAt(s, p))
        decreases nMaxBit - p
      {
        p := p + 1;
        if p >= nMaxBit {
          RankPastEnd(s, p);
          assert false;
        }
        var one := GetAt(p);
        RankStep(s, p);
        if one {
          left := left - 1;
        }
      }
      RankStep(s, p);
    }

    /** How many ones there are up to and including position `n`, less one. */
    method GetBitIndex(n: nat) returns (k: int)
      requires Valid()
      modifies this`count, this`indexed, this`indexes, this`bitSeg
      ensures Valid() && k == Rank(Plain(), n + 1) - 1
    {
      var total := GetCount();
      RankAtMost(Plain(), n + 1);
      if total == 0 {
        return -1;
      }
      if !indexed {
        Index();
      }
      ghost var s := Plain();
      SampleOf(s, bitSeg, indexes, 0);
      SamplesAscend(s, bitSeg, indexes);
      var nMapIndex := FindSample(n);
      k := CountFrom(nMapIndex, n);
    }

    /** The last sample at or before `n`, or the one before it, if there is one. */
    method FindSample(n: nat) returns (nMapIndex: nat)
      requires |indexes| > 0 && Ascending(indexes)
      ensures nMapIndex < |indexes| && (nMapIndex > 0 ==> indexes[nMapIndex] <= n)
      ensures forall j :: nMapIndex + 2 <= j < |indexes| ==> n < indexes[j]
    {
      var start, end: int := 0, |indexes|;
      nMapIndex := 0;
      while start < end
        invariant 0 <= start && end <= |indexes| && 0 <= nMapIndex < |indexes|
        invariant nMapIndex == start - 1 || nMapIndex == end + 1 || (start == 0 && end == |indexes|)
        invariant forall j :: 0 <= j < |indexes| && end < j ==> n < indexes[j]
        decreases end - start
      {
        nMapIndex := (end + start) / 2;
        if n == indexes[nMapIndex] {
          break;
        }
        if n < indexes[nMapIndex] {
          end := nMapIndex - 1;
        } else {
          start := nMapIndex + 1;
        }
      }
      while nMapIndex > 0 && n < indexes[nMapIndex]
        invariant 0 <= nMapIndex < |indexes|
        invariant forall j :: nMapIndex + 2 <= j < |indexes| ==> n < indexes[j]
      {
        nMapIndex := nMapIndex - 1;
      }
    }

    /** Counts the ones from sample `m` up to position `n`. */
    method CountFrom(m: nat, n: nat) returns (k: int)
      requires Valid() && indexed && m < |indexes| && (m > 0 ==> indexes[m] <= n)
      ensures k == Rank(Plain(), n + 1) - 1
    {
      ghost var s := Plain();
      var from := indexes[m];
      k := m * bitSeg;
      CountStart(s, bitSeg, indexes, m, n);
      hide Counting, Samples, Block, Caches;
      var p := from;
      while p < n
        invariant Counting(s, from, n, p, k) && Plain() == s
        decreases n - p
      {
        var one := GetAt(p);
        CountStep(s, from, n, p, k);
        if one {
          k := k + 1;
        }
        p := p + 1;
      }
      CountEnd(s, from, n, p, k);
      var last := GetAt(n);
      if !last {
        k := k - 1;
      }
    }

    /** Removes the bits from `start` to `end`, both included; the later bits move down. */
    method Delete(start: nat, end: int)
      requires Valid()
      modifies this, buffer
      ensures Valid() && buffer == old(buffer)
      ensures if start >= old(length) * 8 || start > end then length == old(length)
              else
                var last := if end < old(length) * 8 then end + 1 else old(length) * 8;
                length == (old(length) * 8 - (last - start) + 7) / 8
      ensures forall i: nat :: Bit(i) == old(Bit(if i < start || end < start then i else i + (end - start + 1)))
    {
      hide BitAt, Caches, Block;
      BlockBounds();
      var nMaxBits := length * 8;
      NoBitsPastEnd();
      if start >= nMaxBits || start > end {
        return;
      }
      var last: nat := if end < nMaxBits - 1 then end else nMaxBits - 1;
      TakeOut(start, last);
    }

    /** Takes out the bits from `start` to `last`, which lie inside the array. */
    method TakeOut(start: nat, last: nat)
      requires Valid() && start <= last < length * 8
      modifies this, buffer
      ensures Valid() && buffer == old(buffer) && length == (old(length) * 8 - (last - start + 1) + 7) / 8
      ensures forall i: nat :: Bit(i) == old(Bit(if i < start then i else i + (last - start + 1)))
    {
      hide BitAt, Caches, Block;
      var nMaxBits := length * 8;
      BlockBounds();
      NoBitsPastEnd();
      ResetRange(start, last);
      MoveDown(start, last);
      Shorten(nMaxBits - (last - start + 1));
    }

    /** Moves the bits past `last` down onto the cleared ones from `start` to `last`. */
    method MoveDown(start: nat, last: nat)
      requires Valid() && count == -1 && !indexed && start <= last < length * 8
      requires forall i: nat :: start <= i <= last ==> !Bit(i)
      modifies this, buffer
      ensures Valid() && count == -1 && !indexed && buffer == old(buffer) && length == old(length)
      ensures forall i: nat :: Bit(i) == old(Bit(if i < start then i else i + (last - start + 1)))
    {
      hide BitAt, Caches, Block, DownSoFar, BitMoved, BitCleared;
      BlockBounds();
      ghost var was, w := Plain(), last - start + 1;
      DownBegins(start, w);
      var nIndex: nat := last + 1;
      while nIndex < length * 8
        invariant last < nIndex <= length * 8 && length == old(length)
        invariant Valid() && buffer == old(buffer) && count == -1 && !indexed
        invariant DownSoFar(was, Plain(), start, w, nIndex)
      {
        ghost var now := Plain();
        MoveBitDown(nIndex, start + nIndex - (last + 1));
        DownStep(was, now, Plain(), start, w, nIndex);
        nIndex := nIndex + 1;
      }
      DownEnds(was, start, w, nIndex);
    }

    lemma DownBegins(start: nat, w: nat)
      requires length <= buffer.Length && forall i: nat :: start <= i < start + w ==> !Bit(i)
      ensures DownSoFar(Plain(), Plain(), start, w, start + w)
    {
      hide BitAt;
      BitsAre(Plain());
      DownStart(Plain(), start, w);
    }

    lemma DownEnds(was: seq<byte>, start: nat, w: nat, at: nat)
      requires Block() && DownSoFar(was, Plain(), start, w, at) && at == 8 * |was|
      ensures forall i: nat :: Bit(i) == BitAt(was, if i < start then i else i + w)
    {
      NoBitPastEnd(was);
      hide BitAt;
      DownEnd(was, Plain(), start, w, at);
      BitsAre(Plain());
    }

    lemma BitsAre(s: seq<byte>)
      requires length <= buffer.Length && s == Plain()
      ensures forall i: nat :: BitAt(s, i) == Bit(i)
    {
    }

    /** Moves one bit down onto a clear one, or leaves it clear. */
    method MoveBitDown(from: nat, to: nat)
      requires Valid() && count == -1 && !indexed && to < from < length * 8
      modifies this, buffer
      ensures Valid() && count == -1 && !indexed && buffer == old(buffer) && length == old(length)
      ensures BitMoved(old(Plain()), Plain(), from, to) || (!old(Bit(from)) && BitCleared(old(Plain()), Plain(), to))
    {
      hide BitAt, Caches, Block;
      BlockBounds();
      BitsAre(Plain());
      var one := GetAt(from);
      if one {
        ResetAt(from);
        SetAt(to);
      } else {
        ResetAt(to);
      }
      BlockBounds();
      BitsAre(Plain());
    }

    lemma NoBitsPastEnd()
      requires length <= buffer.Length
      ensures forall i: nat :: i >= length * 8 ==> !Bit(i)
    {
    }

    /** Drops the bytes past the first `nBits` bits, of which none is set, and clears the last byte's spare bits. */
    method Shorten(nBits: nat)
      requires Valid() && count == -1 && !indexed && nBits < length * 8
      requires forall i: nat :: i >= nBits ==> !Bit(i)
      modifies this`length, buffer
      ensures Valid() && length == (nBits + 7) / 8 <= old(length) && forall i: nat :: Bit(i) == old(Bit(i))
    {
      ghost var was, all := Plain(), buffer[..];
      assert forall i: nat :: i >= nBits ==> Bit(i) == BitAt(was, i);
      length := nBits / 8 + if nBits % 8 != 0 then 1 else 0;
      ShortenedBytes(was, nBits, length);
      assert forall i :: length <= i < |all| ==> all[i] == if i < |was| then was[i] else 0;
      var n := nBits;
      while n < nBits + (8 - nBits % 8)
        invariant nBits <= n <= nBits + (8 - nBits % 8) && buffer[..] == all
        modifies buffer
      {
        assert n / 8 < |was| && all[n / 8] == was[n / 8] && !BitAt(was, n);
        SameBit(buffer[n / 8], n % 8);
        buffer[n / 8] := WithoutBit(buffer[n / 8], n % 8);
        n := n + 1;
      }
      assert forall i :: 0 <= i < buffer.Length ==> buffer[i] == buffer[..][i] == all[i];
      assert Plain() == was[..length];
    }

    /**
     Inserts `n` copies of `b` after bit `start`, or before all bits if `start` is -1. The array
     gets as many bytes as it should have bits, or one for no ones inserted behind bit 0 of an empty array.
    */
    method Insert(start: int, n: nat, b: bool)
      requires Valid() && -1 <= start
      modifies this, buffer
      ensures Valid() && (buffer == old(buffer) || fresh(buffer))
      ensures var bytes := old(length) * 8 + n + if start > old(length) * 8 then start - old(length) * 8 else 0;
              length == if b && bytes == 0 && start == 0 then 1 else bytes
      ensures forall i: nat ::
                Bit(i) == (if i <= start then old(Bit(i)) else if i <= start + n then b else old(Bit(i - n)))
    {
      hide BitAt, Caches, Block;
      BlockBounds();
      var nMaxBits := length * 8;
      NoBitsPastEnd();
      SetLength(nMaxBits + n + if start > nMaxBits then start - nMaxBits else 0);
      MoveUp(start, n, nMaxBits);
      assert start + n <= length;
      if b {
        SetRange(start + 1, start + n);
      } else {
        ResetRange(start + 1, start + n);
      }
    }

    /** Moves the bits after `start` up by `n`, the last one first; the bits from `nMaxBits` on are clear. */
    method MoveUp(start: int, n: nat, nMaxBits: nat)
      requires Block() && -1 <= start && nMaxBits + n <= length && forall i: nat :: i >= nMaxBits ==> !Bit(i)
      modifies buffer
      ensures Block()
      ensures forall i: nat :: Bit(i) == (!(start < i <= start + n) && old(Bit(if i <= start then i else i - n)))
    {
      hide BitAt, Block, UpSoFar, BitMoved;
      BlockBounds();
      ghost var was := Plain();
      var nIndex: int := nMaxBits - 1;
      UpBegins(if nIndex > start then nIndex else start, n, nMaxBits);
      while nIndex > start
        invariant -1 <= nIndex < nMaxBits && (start <= nIndex || nIndex == nMaxBits - 1)
        invariant Block() && UpSoFar(was, Plain(), if nIndex > start then nIndex else start, n)
      {
        ghost var now := Plain();
        MoveBitUp(nIndex, nIndex + n);
        UpStep(was, now, Plain(), nIndex, n);
        nIndex := nIndex - 1;
      }
      UpEnds(was, start, n);
    }

    lemma UpBegins(at: int, n: nat, end: nat)
      requires length <= buffer.Length && -1 <= at && end - 1 <= at && forall i: nat :: i >= end ==> !Bit(i)
      ensures UpSoFar(Plain(), Plain(), at, n)
    {
      hide BitAt;
      BitsAre(Plain());
      UpStart(Plain(), at, n, end);
    }

    lemma UpEnds(was: seq<byte>, at: int, n: nat)
      requires Block() && UpSoFar(was, Plain(), at, n)
      ensures forall i: nat :: Bit(i) == (!(at < i <= at + n) && BitAt(was, if i <= at then i else i - n))
    {
      hide BitAt;
      UpEnd(was, Plain(), at, n);
      BitsAre(Plain());
    }

    /** Moves one bit up, if it is set. */
    method MoveBitUp(from: nat, to: nat)
      requires Block() && from <= to < length * 8
      modifies buffer
      ensures Block()
      ensures if old(Bit(from)) then BitMoved(old(Plain()), Plain(), from, to) else Plain() == old(Plain())
    {
      hide BitAt, Block;
      BlockBounds();
      BitsAre(Plain());
      var one := GetAt(from);
      if one {
        PutBit(from, false);
        PutBit(to, true);
      }
      BitsAre(Plain());
    }

    lemma BlockBounds()
      requires Block()
      ensures length <= buffer.Length
    {
    }

    /** Deleting what was inserted restores every bit. */
    method InsertThenDelete(start: int, n: nat, b: bool)
      requires Valid() && -1 <= start
      modifies this, buffer
      ensures Valid() && forall i: nat :: Bit(i) == old(Bit(i))
    {
      Insert(start, n, b);
      Delete(start + 1, start + n);
    }
  }

  // ---------- Bits moved one at a time ----------

  /** Bit `from` was set and is now at `to`. */
  ghost predicate BitMoved(s: seq<byte>, t: seq<byte>, from: nat, to: nat) {
    BitAt(s, from) && forall i: nat :: BitAt(t, i) == (i == to || (i != from && BitAt(s, i)))
  }

  ghost predicate BitCleared(s: seq<byte>, t: seq<byte>, n: nat) {
    forall i: nat :: BitAt(t, i) == (i != n && BitAt(s, i))
  }

  /** The bits from `start + w` up to `at` have moved down by `w`. */
  ghost predicate DownSoFar(was: seq<byte>, now: seq<byte>, start: nat, w: nat, at: nat) {
    && start + w <= at
    && forall i: nat :: BitAt(now, i) == (!(at - w <= i < at) && BitAt(was, if start <= i < at - w then i + w else i))
  }

  lemma NoBitPastEnd(s: seq<byte>)
    ensures forall i: nat :: i >= 8 * |s| ==> !BitAt(s, i)
  {
  }

  lemma DownStart(was: seq<byte>, start: nat, w: nat)
    requires forall i: nat :: start <= i < start + w ==> !BitAt(was, i)
    ensures DownSoFar(was, was, start, w, start + w)
  {
    hide BitAt;
  }

  lemma DownStep(was: seq<byte>, now: seq<byte>, next: seq<byte>, start: nat, w: nat, at: nat)
    requires w > 0 && DownSoFar(was, now, start, w, at)
    requires BitMoved(now, next, at, at - w) || (!BitAt(now, at) && BitCleared(now, next, at - w))
    ensures DownSoFar(was, next, start, w, at + 1)
  {
    hide BitAt;
  }

  lemma DownEnd(was: seq<byte>, now: seq<byte>, start: nat, w: nat, at: nat)
    requires DownSoFar(was, now, start, w, at) && forall i: nat :: i >= at ==> !BitAt(was, i)
    ensures forall i: nat :: BitAt(now, i) == BitAt(was, if i < start then i else i + w)
  {
    hide BitAt;
  }

  /** The bits after `at` have moved up by `n`. */
  ghost predicate UpSoFar(was: seq<byte>, now: seq<byte>, at: int, n: nat) {
    at >= -1 && forall i: nat :: BitAt(now, i) == (!(at < i <= at + n) && BitAt(was, if i <= at then i else i - n))
  }

  lemma UpStart(was: seq<byte>, at: int, n: nat, end: nat)
    requires -1 <= at && end - 1 <= at && forall i: nat :: i >= end ==> !BitAt(was, i)
    ensures UpSoFar(was, was, at, n)
  {
    hide BitAt;
  }

  lemma UpStep(was: seq<byte>, now: seq<byte>, next: seq<byte>, at: nat, n: nat)
    requires UpSoFar(was, now, at, n)
    requires if BitAt(now, at) then BitMoved(now, next, at, at + n) else next == now
    ensures UpSoFar(was, next, at - 1, n)
  {
    hide BitAt;
  }

  lemma UpEnd(was: seq<byte>, now: seq<byte>, at: int, n: nat)
    requires UpSoFar(was, now, at, n)
    ensures forall i: nat :: BitAt(now, i) == (!(at < i <= at + n) && BitAt(was, if i <= at then i else i - n))
  {
  }

  /** The state of the indexing loop at bit `n`: `c` ones seen, one in `seg` of them sampled. */
  ghost predicate Sampled(s: seq<byte>, n: nat, seg: nat, c: int, idx: seq<nat>) {
    && seg > 0 && c == Rank(s, n)
    && (forall j :: 0 <= j < |idx| ==> IsSample(s, seg, idx, j))
    && (|idx| - 1) * seg < c <= |idx| * seg
  }

  ghost predicate Ascending(idx: seq<nat>) {
    forall i, j :: 0 <= i < j < |idx| ==> idx[i] < idx[j]
  }

  lemma SamplesAscend(s: seq<byte>, seg: nat, idx: seq<nat>)
    requires Samples(s, seg, idx)
    ensures Ascending(idx)
  {
    hide Rank, BitAt;
    forall i, j | 0 <= i < j < |idx|
      ensures idx[i] < idx[j]
    {
      assert IsSample(s, seg, idx, i) && IsSample(s, seg, idx, j);
      assert i * seg < j * seg;
      if idx[j] <= idx[i] {
        RankMonotone(s, idx[j], idx[i]);
      }
    }
  }

  /** The state of the counting loop: the ones before `p`, or none when the count starts past `n`. */
  ghost predicate Counting(s: seq<byte>, from: nat, n: nat, p: nat, k: int) {
    if from <= n then p <= n && k == Rank(s, p) else p == from && k == 0 && Rank(s, n + 1) == 0
  }

  lemma CountStart(s: seq<byte>, seg: nat, idx: seq<nat>, m: nat, n: nat)
    requires Samples(s, seg, idx) && m < |idx| && (m > 0 ==> idx[m] <= n)
    ensures Counting(s, idx[m], n, idx[m], m * seg)
  {
    hide BitAt, Rank;
    assert IsSample(s, seg, idx, m);
    if n < idx[m] {
      RankMonotone(s, n + 1, idx[m]);
    }
  }

  lemma CountStep(s: seq<byte>, from: nat, n: nat, p: nat, k: int)
    requires Counting(s, from, n, p, k) && p < n
    ensures Counting(s, from, n, p + 1, k + if BitAt(s, p) then 1 else 0)
  {
    RankStep(s, p);
    hide Rank, BitAt;
  }

  lemma CountEnd(s: seq<byte>, from: nat, n: nat, p: nat, k: int)
    requires Counting(s, from, n, p, k) && p >= n
    ensures k - (if BitAt(s, n) then 0 else 1) == Rank(s, n + 1) - 1
  {
    RankStep(s, n);
    hide Rank, BitAt;
  }

  lemma MulOrder(a: int, b: int, seg: nat)
    requires seg > 0
    ensures a < b <==> a * seg < b * seg
  {
    var d := b - a;
    assert b * seg == a * seg + d * seg;
    assert d > 0 <==> d * seg > 0;
  }

  lemma Multiples(c: nat, seg: nat, m: nat)
    requires seg > 0 && (m - 1) * seg < c <= m * seg
    ensures c % seg == 0 <==> c == m * seg
    ensures c % seg == 0 ==> m * seg < c + 1 <= (m + 1) * seg
    ensures c % seg != 0 ==> c + 1 <= m * seg
  {
    var q := c / seg;
    assert c == q * seg + c % seg;
    if c % seg == 0 {
      MulOrder(m - 1, q, seg);
      MulOrder(m, q, seg);
    }
    if c == m * seg {
      assert (m - q) * seg == c % seg;
      MulOrder(m - q, 1, seg);
      MulOrder(m - q, 0, seg);
    }
    assert (m + 1) * seg == m * seg + seg;
  }

  lemma SampleNext(s: seq<byte>, n: nat, seg: nat, c: nat, idx: seq<nat>)
    requires Sampled(s, n, seg, c, idx) && BitAt(s, n)
    ensures Sampled(s, n + 1, seg, c + 1, if c % seg == 0 then idx + [n] else idx)
  {
    Multiples(c, seg, |idx|);
    if c % seg == 0 {
      var idx' := idx + [n];
      forall j | 0 <= j < |idx'|
        ensures IsSample(s, seg, idx', j)
      {
        if j < |idx| {
          assert IsSample(s, seg, idx, j);
        }
      }
    } else {
      assert (|idx| - 1) * seg < c + 1;
    }
  }

  lemma SampleSkip(s: seq<byte>, n: nat, seg: nat, c: nat, idx: seq<nat>)
    requires Sampled(s, n, seg, c, idx) && !BitAt(s, n)
    ensures Sampled(s, n + 1, seg, c, idx)
  {
  }

  lemma NothingSampled(s: seq<byte>, seg: nat)
    requires seg > 0
    ensures Sampled(s, 0, seg, 0, [])
  {
  }

  lemma AllSampled(s: seq<byte>, seg: nat, c: int, idx: seq<nat>)
    requires Sampled(s, 8 * |s|, seg, c, idx)
    ensures Samples(s, seg, idx) && c == PopCount(s) && (|idx| - 1) * seg < c <= |idx| * seg
  {
  }

  lemma SampledSegments(s: seq<byte>, n: nat, seg: nat, c: int, idx: seq<nat>)
    requires Sampled(s, n, seg, c, idx)
    ensures seg > 0 && c >= 0
  {
  }

  lemma SampleSame(s: seq<byte>, m: nat, n: nat, seg: nat, c: nat, idx: seq<nat>)
    requires Sampled(s, m, seg, c, idx) && Rank(s, n) == Rank(s, m)
    ensures Sampled(s, n, seg, c, idx)
  {
  }

  lemma DivBound(i: nat, seg: nat, m: nat)
    requires seg > 0 && i < m * seg
    ensures i / seg < m && i / seg * seg == i - i % seg
    ensures seg == 1 ==> i / seg == i && i % seg == 0
  {
    var q := i / seg;
    assert i == q * seg + i % seg;
    assert q >= m ==> q * seg >= m * seg;
  }

  /** The sample that the `i`-th one is looked up from. */
  lemma SampleOf(s: seq<byte>, seg: nat, idx: seq<nat>, i: nat)
    requires Samples(s, seg, idx) && i < PopCount(s)
    ensures i / seg < |idx|
    ensures IsOne(s, i - i % seg, idx[i / seg])
    ensures Rank(s, idx[i / seg] + 1) + i % seg == i + 1
    ensures seg == 1 ==> i / seg == i && i % seg == 0
  {
    hide Samples, PopCount, Rank, BitAt;
    SamplesCover(s, seg, idx, i);
    DivBound(i, seg, |idx|);
    SampleAt(s, seg, idx, i / seg, i - i % seg);
    RankStep(s, idx[i / seg]);
  }

  lemma SamplesCover(s: seq<byte>, seg: nat, idx: seq<nat>, i: nat)
    requires Samples(s, seg, idx) && i < PopCount(s)
    ensures seg > 0 && i < |idx| * seg
  {
  }

  lemma SampleAt(s: seq<byte>, seg: nat, idx: seq<nat>, q: nat, first: nat)
    requires Samples(s, seg, idx) && q < |idx| && first == q * seg
    ensures BitAt(s, idx[q]) && Rank(s, idx[q]) == first
  {
    assert IsSample(s, seg, idx, q);
  }

  lemma SameBitsLonger(s: seq<byte>, t: seq<byte>)
    requires |s| <= |t| && forall i :: 0 <= i < |t| ==> t[i] == if i < |s| then s[i] else 0
    ensures forall i: nat :: BitAt(t, i) == BitAt(s, i)
  {
    forall i: nat
      ensures BitAt(t, i) == BitAt(s, i)
    {
      ZeroHasNoBit(i % 8);
    }
  }

  lemma NothingSet(s: seq<byte>)
    ensures s == [] ==> forall i: nat :: !BitAt(s, i)
  {
  }

  /** Counts and samples depend only on the bits. */
  lemma SameCaches(s: seq<byte>, t: seq<byte>, seg: nat, idx: seq<nat>)
    requires forall i: nat :: BitAt(s, i) == BitAt(t, i)
    ensures PopCount(s) == PopCount(t) && (Samples(s, seg, idx) ==> Samples(t, seg, idx))
  {
    hide BitAt, Rank, PopCount;
    var n := 8 * |s| + 8 * |t|;
    RankPastEnd(s, n);
    RankPastEnd(t, n);
    RankOfSameBits(s, t, n);
    if Samples(s, seg, idx) {
      forall j | 0 <= j < |idx|
        ensures IsSample(t, seg, idx, j)
      {
        assert IsSample(s, seg, idx, j);
        RankOfSameBits(s, t, idx[j]);
      }
    }
  }

  /** Bytes without ones are zero, and dropping them changes no bit. */
  lemma ShortenedBytes(s: seq<byte>, nBits: nat, n: nat)
    requires n <= |s| && nBits <= 8 * n && forall i: nat :: i >= nBits ==> !BitAt(s, i)
    ensures forall k :: n <= k < |s| ==> s[k] == 0
    ensures forall i: nat :: BitAt(s[..n], i) == BitAt(s, i)
  {
    forall k | n <= k < |s|
      ensures s[k] == 0
    {
      forall j: nat | j < 8
        ensures !NatBit(s[k], j)
      {
        assert !BitAt(s, 8 * k + j);
        assert (8 * k + j) / 8 == k && (8 * k + j) % 8 == j;
      }
      NoBitsInByte(s[k]);
    }
    SameBitsLonger(s[..n], s);
  }

  ghost function PutBitIn(s: seq<byte>, n: nat, b: bool): seq<byte>
    requires n / 8 < |s|
  {
    s[n / 8 := if b then WithBit(s[n / 8], n % 8) else WithoutBit(s[n / 8], n % 8)]
  }

  lemma PutBitBits(s: seq<byte>, n: nat, b: bool)
    requires n / 8 < |s|
    ensures forall i: nat :: BitAt(PutBitIn(s, n, b), i) == if i == n then b else BitAt(s, i)
  {
    forall i: nat
      ensures BitAt(PutBitIn(s, n, b), i) == if i == n then b else BitAt(s, i)
    {
      if i / 8 == n / 8 && i != n {
        OtherBits(s[n / 8], n % 8, i % 8);
      }
    }
  }
}
