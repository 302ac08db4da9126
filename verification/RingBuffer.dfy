/**
 The byte ring of `EngineLayer/SFIOBuffer.h` and `EngineLayer/SFIOBuffer.cpp`: a fixed block,
 the index of the first byte, the index behind the last one, and the number of bytes between.
*/
module RingBuffer {
  import opened Bytes

  const MAX_IO_SIZE := 16384

  /** The number of bytes from `head` round to `tail`. */
  function Between(head: int, tail: int, size: nat): int {
    if head > tail then size - head + tail else tail - head
  }

  /** Where `n` bytes on from `head` is. */
  function Round(at: int, size: nat): int {
    if at >= size then at - size else at
  }

  /** The `n` bytes from `head` on, around the end of the block. */
  function Ring(s: seq<byte>, head: nat, n: nat): (r: seq<byte>)
    requires n <= |s| && head <= |s|
    ensures |r| == n
  {
    if head + n <= |s| then s[head..head + n] else s[head..] + s[..head + n - |s|]
  }

  lemma RingAt(s: seq<byte>, head: nat, n: nat, i: nat)
    requires i < n <= |s| && head < |s|
    ensures 0 <= Round(head + i, |s|) < |s| && Ring(s, head, n)[i] == s[Round(head + i, |s|)]
  {
  }

  /** The tail and the number of bytes determine each other. */
  lemma BetweenRound(head: nat, n: nat, size: nat)
    requires head < size && n < size
    ensures 0 <= Round(head + n, size) < size && Between(head, Round(head + n, size), size) == n
  {
  }

  /** Taking the first `k` bytes off leaves the ring that starts `k` bytes on. */
  lemma RingSplit(s: seq<byte>, head: nat, n: nat, k: nat)
    requires k <= n < |s| && head < |s|
    ensures 0 <= Round(head + k, |s|) < |s|
    ensures Ring(s, head, n)[..k] == Ring(s, head, k)
    ensures Ring(s, head, n)[k..] == Ring(s, Round(head + k, |s|), n - k)
  {
    hide Ring;
    forall i | 0 <= i < k
      ensures Ring(s, head, n)[i] == Ring(s, head, k)[i]
    {
      RingAt(s, head, n, i);
      RingAt(s, head, k, i);
    }
    forall i | 0 <= i < n - k
      ensures Ring(s, head, n)[k..][i] == Ring(s, Round(head + k, |s|), n - k)[i]
    {
      RingAt(s, head, n, k + i);
      RingAt(s, Round(head + k, |s|), n - k, i);
    }
  }

  /** The block with `chunk` copied to `at`. */
  function Patch(s: seq<byte>, at: nat, chunk: seq<byte>): (r: seq<byte>)
    requires at + |chunk| <= |s|
    ensures |r| == |s|
  {
    s[..at] + chunk + s[at + |chunk|..]
  }

  /** A chunk copied behind the last byte is appended to the ring. */
  lemma RingPatch(s: seq<byte>, head: nat, n: nat, chunk: seq<byte>)
    requires head < |s| && n + |chunk| <= |s|
    requires 0 <= Round(head + n, |s|) < |s| && Round(head + n, |s|) + |chunk| <= |s|
    ensures Ring(Patch(s, Round(head + n, |s|), chunk), head, n + |chunk|) == Ring(s, head, n) + chunk
  {
    hide Ring;
    var t := Round(head + n, |s|);
    var s' := Patch(s, t, chunk);
    forall i | 0 <= i < n + |chunk|
      ensures Ring(s', head, n + |chunk|)[i] == (Ring(s, head, n) + chunk)[i]
    {
      RingAt(s', head, n + |chunk|, i);
      if i < n {
        RingAt(s, head, n, i);
      }
    }
  }

  /** `memcpy`: `n` bytes of `src` from `from` on to `dst` at `at`. */
  method Copy(dst: array<byte>, at: nat, src: seq<byte>, from: nat, n: nat)
    requires at + n <= dst.Length && from + n <= |src|
    modifies dst
    ensures dst[..] == Patch(old(dst[..]), at, src[from..from + n])
  {
    for i := 0 to n
      invariant forall k :: at <= k < at + i ==> dst[k] == src[from + (k - at)]
      invariant forall k :: 0 <= k < at || at + i <= k < dst.Length ==> dst[k] == old(dst[k])
    {
      dst[at + i] := src[from + i];
    }
  }

  class IOBuffer {
    var buf: array<byte>
    var head: int
    var tail: int
    var used: int

    ghost predicate Valid()
      reads this
    {
      && used == Between(head, tail, buf.Length)
      && (if buf.Length == 0 then head == 0 && tail == 0 else 0 <= head < buf.Length && 0 <= tail < buf.Length)
    }

    /** The bytes in the buffer, oldest first. */
    ghost function Contents(): (s: seq<byte>)
      requires Valid()
      reads this, buf
      ensures |s| == used
    {
      Ring(buf[..], head, used)
    }

    /** A buffer without a block. */
    constructor ()
      ensures Valid() && fresh(buf) && buf.Length == 0 && Contents() == []
    {
      buf, head, tail, used := new byte[0], 0, 0, 0;
    }

    /** Empties the buffer and zeroes its block. */
    method InitIOBuf()
      modifies this, buf
      ensures Valid() && buf == old(buf) && Contents() == [] && forall i :: 0 <= i < buf.Length ==> buf[i] == 0
    {
      tail, head, used := 0, 0, 0;
      for i := 0 to buf.Length
        modifies buf
        invariant Valid() && used == 0 && forall k :: 0 <= k < i ==> buf[k] == 0
      {
        buf[i] := 0;
      }
    }

    /** Gets a block of the wanted size, or of the largest one if none is named; a larger one is refused. */
    method AllocIOBuf(size: int) returns (ok: bool)
      requires Valid()
      modifies this, buf
      ensures Valid() && ok == (size <= 16384)
      ensures ok ==> fresh(buf) && buf.Length == (if size <= 0 then 16384 else size) && Contents() == []
      ensures ok ==> forall i :: 0 <= i < buf.Length ==> buf[i] == 0
      ensures !ok ==> buf == old(buf) && Contents() == old(Contents())
    {
      var n := size;
      if n <= 0 {
        n := MAX_IO_SIZE;
      }
      if n > MAX_IO_SIZE {
        return false;
      }
      buf := new byte[n];
      head, tail := 0, 0;
      used := 0;
      InitIOBuf();
      return true;
    }

    method FreeIOBuf()
      modifies this
      ensures Valid() && fresh(buf) && buf.Length == 0 && Contents() == []
    {
      buf := new byte[0];
      head, tail, used := 0, 0, 0;
    }

    method CalcUsedBufferSize()
      modifies this`used
      ensures used == Between(head, tail, buf.Length)
    {
      if head > tail {
        used := buf.Length - head + tail;
      } else {
        used := tail - head;
      }
    }

    /** Sets the head to an index of the block and recounts the bytes. */
    method SetHead(h: int)
      requires if buf.Length == 0 then h == 0 && tail == 0 else 0 <= h < buf.Length && 0 <= tail < buf.Length
      modifies this`head, this`used
      ensures Valid() && head == h
    {
      head := h;
      CalcUsedBufferSize();
    }

    /**
     Appends the first `size` bytes of `data`, or refuses with -1 and changes nothing when the
     block would be full: one byte of it always stays unused.
    */
    method AppendData(data: seq<byte>, size: int) returns (added: int)
      requires Valid() && size <= |data|
      modifies this`tail, this`used, buf
      ensures Valid()
      ensures old(used) + size >= buf.Length ==> added == -1 && Contents() == old(Contents())
      ensures old(used) + size < buf.Length && size <= 0 ==> added == 0 && Contents() == old(Contents())
      ensures old(used) + size < buf.Length && size > 0 ==>
        added == size && Contents() == old(Contents()) + data[..size]
    {
      hide Ring;
      if used + size >= buf.Length {
        return -1;
      }
      added := 0;
      var left := size;
      if size > 0 {
        BetweenRound(head, used, buf.Length);
      }
      while left > 0
        modifies this`tail, buf
        invariant size <= 0 ==> added == 0 && left == size && tail == old(tail) && buf[..] == old(buf[..])
        invariant size > 0 ==> 0 <= left && added + left == size && Filled(data, size, added, old(Contents()))
      {
        var n := if left > buf.Length - tail then buf.Length - tail else left;
        if n != 0 {
          AppendChunk(data, size, added, n, old(Contents()));
          added := added + n;
          left := left - n;
        }
      }
      if size > 0 {
        BetweenRound(head, used + size, buf.Length);
        assert data[..size] == data[..added];
      }
      CalcUsedBufferSize();
    }

    /** Copies one chunk, up to the end of the block at most, and moves the tail. */
    method AppendChunk(data: seq<byte>, size: nat, added: nat, n: nat, ghost before: seq<byte>)
      requires Filled(data, size, added, before) && added + n <= size && tail + n <= buf.Length
      modifies this`tail, buf
      ensures Filled(data, size, added + n, before)
    {
      hide Ring, Patch;
      RingPatch(buf[..], head, used + added, data[added..added + n]);
      assert data[..added + n] == data[..added] + data[added..added + n];
      Assoc(before, data[..added], data[added..added + n]);
      Copy(buf, tail, data, added, n);
      tail := tail + n;
      if tail >= buf.Length {
        tail := tail - buf.Length;
      }
    }

    /** In the middle of an append: `added` of the bytes are in the block, not counted yet. */
    ghost predicate Filled(data: seq<byte>, size: nat, added: int, before: seq<byte>)
      reads this, buf
    {
      && 0 <= added <= size <= |data|
      && 0 <= head < buf.Length && 0 <= used && used + size < buf.Length
      && tail == Round(head + used + added, buf.Length)
      && Ring(buf[..], head, used + added) == before + data[..added]
    }

    /** Moves up to `size` of the oldest bytes to the front of `out`, which has room for those that are moved. */
    method GetData(out: array<byte>, size: int) returns (got: int)
      requires Valid() && (size <= out.Length || used <= out.Length) && out != buf
      modifies this`head, this`used, out
      ensures Valid()
      ensures got == if size <= 0 || old(used) <= 0 then 0 else if old(used) < size then old(used) else size
      ensures Contents() == old(Contents())[got..]
      ensures out[..] == Patch(old(out[..]), 0, old(Contents())[..got])
    {
      hide Ring, Patch;
      got := size;
      if used < got {
        got := used;
      }
      if got <= 0 {
        PatchNothing(out[..]);
        return 0;
      }
      BetweenBounds(head, tail, buf.Length);
      hide Between;
      RingSplit(buf[..], head, used, got);
      TailAfter(head, tail, got, buf.Length);
      CopyOut(out, got);
      head := head + got;
      if head >= buf.Length {
        head := head - buf.Length;
      }
      CalcUsedBufferSize();
    }

    /** Copies the oldest bytes, around the end of the block. */
    method CopyOut(out: array<byte>, got: nat)
      requires 0 <= head < buf.Length && got <= buf.Length && got <= out.Length && out != buf
      modifies out
      ensures out[..] == Patch(old(out[..]), 0, Ring(buf[..], head, got))
    {
      hide Ring, Patch;
      if head + got > buf.Length {
        var diff := buf.Length - head;
        WrappedCopy(out[..], buf[..], head, got);
        Copy(out, 0, buf[..], head, diff);
        Copy(out, diff, buf[..], 0, got - diff);
      } else {
        PlainCopy(buf[..], head, got);
        Copy(out, 0, buf[..], head, got);
      }
    }

    /** Drops up to `size` of the oldest bytes. */
    method RemoveData(size: int) returns (removed: int)
      requires Valid()
      modifies this`head, this`used
      ensures Valid()
      ensures removed == if size <= 0 || old(used) <= 0 then 0 else if old(used) < size then old(used) else size
      ensures Contents() == old(Contents())[removed..]
    {
      hide Ring;
      removed := size;
      if used < removed {
        removed := used;
      }
      if removed <= 0 {
        return 0;
      }
      RingSplit(buf[..], head, used, removed);
      TailAfter(head, tail, removed, buf.Length);
      head := head + removed;
      if head >= buf.Length {
        head := head - buf.Length;
      }
      CalcUsedBufferSize();
    }
  }

  lemma BetweenBounds(head: nat, tail: nat, size: nat)
    requires head < size && tail < size
    ensures 0 <= Between(head, tail, size) < size
  {
  }

  /** Moving the head `k` bytes on takes `k` off the count. */
  lemma TailAfter(head: nat, tail: nat, k: nat, size: nat)
    requires head < size && tail < size && k <= Between(head, tail, size)
    ensures 0 <= Round(head + k, size) < size
    ensures Between(Round(head + k, size), tail, size) == Between(head, tail, size) - k
  {
  }

  lemma PatchNothing(s: seq<byte>)
    ensures Patch(s, 0, []) == s
  {
  }

  lemma PlainCopy(s: seq<byte>, head: nat, n: nat)
    requires head + n <= |s|
    ensures s[head..head + n] == Ring(s, head, n)
  {
  }

  /** Two copies around the end of the block put the ring's bytes into `out`. */
  lemma WrappedCopy(out: seq<byte>, s: seq<byte>, head: nat, n: nat)
    requires head <= |s| < head + n && n <= |s| && n <= |out|
    ensures var k := |s| - head;
            Patch(Patch(out, 0, s[head..head + k]), k, s[0..0 + (n - k)]) == Patch(out, 0, Ring(s, head, n))
  {
    assert s[0..0 + (n - (|s| - head))] == s[..head + n - |s|];
  }
}
