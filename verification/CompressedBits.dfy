/**
 The static run-length operations of `SFBitArray` on the buffer they share with their caller:
 a `malloc` block, of which the first `len` bytes are in use.
*/
module CompressedBits {
  import opened Bytes
  import opened Memory
  import opened RunLengthCode
  import opened RunLengthUpdate

  /** The block starts with the bytes `data`, and the rest of it is zero. */
  ghost predicate HoldsPlain(p: array<byte>, data: seq<byte>)
    reads p
  {
    |data| <= p.Length && p[..|data|] == data && forall i :: |data| <= i < p.Length ==> p[i] == 0
  }

  /** Makes room for `n` more bytes and some. */
  method GrowPlain(p: array<byte>, used: nat, n: nat, nLength: nat, ghost data: seq<byte>)
    returns (q: array<byte>, m: nat)
    requires HoldsPlain(p, data) && used == |data| && nLength <= p.Length
    ensures HoldsPlain(q, data) && (q == p || fresh(q)) && used + n + 10 <= m <= q.Length
  {
    q, m := p, nLength;
    if used + n + 10 >= m {
      m := used + n + 1024;
      q := ReAllocPtr(p, m);
    }
  }

  /** Writes a run; the zero bytes of a zero run are there already. */
  method PutFill(p: array<byte>, at: nat, b: byte, n: nat, ghost data: seq<byte>)
    requires HoldsPlain(p, data) && at == |data| && at + n <= p.Length
    modifies p
    ensures HoldsPlain(p, data + Fill(b, n))
  {
    if b != 0 {
      forall i | at <= i < at + n {
        p[i] := b;
      }
    }
  }

  method PutByte(p: array<byte>, at: nat, b: byte, ghost data: seq<byte>)
    requires HoldsPlain(p, data) && at == |data| < p.Length
    modifies p
    ensures HoldsPlain(p, data + [b])
  {
    p[at] := b;
  }

  /** How many bytes are left without the zero bytes at the end. */
  method TrimmedLength(s: seq<byte>) returns (n: nat)
    ensures n <= |s| && s[..n] == Trim(s)
  {
    n := |s|;
    assert s[..n] == s;
    while n > 0 && s[n - 1] == 0
      invariant n <= |s| && Trim(s[..n]) == Trim(s)
    {
      assert s[..n][..n - 1] == s[..n - 1];
      n := n - 1;
    }
  }

  /** The length of the run at `at`, cut off at the longest that a count can hold. */
  method RunLengthAt(s: seq<byte>, at: nat, end: nat) returns (nRunLength: nat)
    requires at < end <= |s|
    ensures 1 <= nRunLength <= MAX_RUN && at + nRunLength <= end
    ensures s[at..at + nRunLength] == Fill(s[at], nRunLength)
    ensures nRunLength == MAX_RUN || at + nRunLength == end || s[at + nRunLength] != s[at]
  {
    nRunLength := 1;
    while nRunLength < MAX_RUN && at + nRunLength < end && s[at + nRunLength] == s[at]
      invariant 1 <= nRunLength <= MAX_RUN && at + nRunLength <= end
      invariant forall j :: at <= j < at + nRunLength ==> s[j] == s[at]
    {
      nRunLength := nRunLength + 1;
    }
  }

  /** A run that was written is as long as it can be: the bytes go on otherwise at `at`. */
  predicate RunIsOver(ts: seq<Token>, s: seq<byte>, at: nat, end: nat)
    requires at <= end <= |s|
  {
    ts != [] && at < end ==>
      var t := ts[|ts| - 1];
      t.Run? && t.count != 65535 ==> s[at] != t.fill
  }

  // ---------- What the memory operations do to the bytes in use ----------

  ghost function Gap(s: seq<byte>, at: nat, n: nat): (r: seq<byte>)
    requires at <= |s|
    ensures |r| == |s| + n
  {
    s[..at] + Zeros(n) + s[at..]
  }

  ghost function Cut(s: seq<byte>, at: nat, n: nat): (r: seq<byte>)
    requires at + n <= |s|
    ensures |r| == |s| - n
  {
    s[..at] + s[at + n..]
  }

  ghost function Put(s: seq<byte>, at: nat, w: nat): (r: seq<byte>)
    requires at + 2 <= |s|
    ensures |r| == |s|
  {
    s[at := LowByte(w)][at + 1 := HighByte(w)]
  }

  /** The tail moved up by `n` and the hole zeroed. */
  lemma GapInBlock(m: seq<byte>, m1: seq<byte>, m2: seq<byte>, len: nat, at: nat, n: nat)
    requires 1 <= at <= len && len + n <= |m|
    requires m1 == Moved(m, at + n, at, len - at) && m2 == Zeroed(m1, at, n)
    ensures |m2| == |m| && m2[0] == m[0] && m2[1..len + n] == Gap(m[1..len], at - 1, n)
    ensures forall i :: len + n <= i < |m| ==> m2[i] == m[i]
  {
    assert m2 == m[..at] + Zeros(n) + m[at..len] + m[len + n..];
    assert Gap(m[1..len], at - 1, n) == m[1..at] + Zeros(n) + m[at..len];
  }

  /** The tail moved down by `n` and the bytes that fall free zeroed. */
  lemma CutInBlock(m: seq<byte>, m1: seq<byte>, m2: seq<byte>, len: nat, at: nat, n: nat)
    requires 1 <= at && at + n <= len <= |m|
    requires m1 == Moved(m, at, at + n, len - at - n) && m2 == Zeroed(m1, len - n, n)
    ensures |m2| == |m| && m2[0] == m[0] && m2[1..len - n] == Cut(m[1..len], at - 1, n)
    ensures forall i :: len - n <= i < len ==> m2[i] == 0
    ensures forall i :: len <= i < |m| ==> m2[i] == m[i]
  {
    assert m2 == m[..at] + m[at + n..len] + Zeros(n) + m[len..];
    assert Cut(m[1..len], at - 1, n) == m[1..at] + m[at + n..len];
  }

  class CompressedBits {
    var src: array?<byte>
    var len: nat
    ghost var tokens: seq<Token>

    /** The used bytes start with the format byte 1, and the bytes past them are zero. */
    ghost predicate Block()
      reads this`src, this`len, src
    {
      && src != null && 1 <= len <= src.Length && src[0] == 1
      && forall i :: len <= i < src.Length ==> src[i] == 0
    }

    ghost predicate Valid()
      reads this, src
    {
      && AllWellFormed(tokens)
      && (len == 0 ==> tokens == [])
      && (len > 0 ==> Block() && src[1..len] == Stored(tokens))
    }

    /** The bytes that the run-length form stands for. */
    ghost function Plain(): seq<byte>
      reads this
    {
      Data(tokens)
    }

    constructor ()
      ensures Valid() && Plain() == []
    {
      src, len, tokens := null, 0, [];
    }

    /** Makes the block at least `n` bytes long. */
    method GrowBlock(n: nat)
      requires Block() && len <= n
      modifies this`src
      ensures Block() && fresh(src) && n <= src.Length
      ensures src[1..len] == old(src[1..len])
    {
      src := ReAllocPtr(src, n);
    }

    /** Grows the block and opens `n` zero bytes at `at`. */
    method OpenGap(at: nat, n: nat)
      requires Block() && 1 <= at <= len
      modifies this`src, this`len
      ensures Block() && fresh(src) && len == old(len) + n
      ensures src[1..len] == Gap(old(src[1..len]), at - 1, n)
    {
      hide Gap, Zeros, Block;
      GrowBlock(len + n);
      MakeGap(at, n);
    }

    /** Moves the tail up inside the block and zeroes the gap. */
    method MakeGap(at: nat, n: nat)
      requires Block() && 1 <= at <= len && len + n <= src.Length
      modifies src, this`len
      ensures Block() && len == old(len) + n
      ensures src[1..len] == Gap(old(src[1..len]), at - 1, n)
    {
      hide Gap, Zeros, Block, Moved, Zeroed;
      BlockBytes();
      ghost var m := src[..];
      MemMove(src, at + n, at, len - at);
      ghost var m1 := src[..];
      MemZero(src, at, n);
      GapInBlock(m, m1, src[..], len, at, n);
      len := len + n;
      BytesBlock(src[..]);
    }

    /** Removes `n` bytes at `at` and zeroes the `n` bytes that fall free at the end. */
    method CloseGap(at: nat, n: nat)
      requires Block() && 1 <= at && at + n <= len
      modifies src, this`len
      ensures Block() && len == old(len) - n
      ensures src[1..len] == Cut(old(src[1..len]), at - 1, n)
    {
      hide Cut, Zeros, Block, Moved, Zeroed;
      BlockBytes();
      ghost var m := src[..];
      MemMove(src, at, at + n, len - at - n);
      ghost var m1 := src[..];
      len := len - n;
      MemZero(src, len, n);
      CutInBlock(m, m1, src[..], len + n, at, n);
      BytesBlock(src[..]);
    }

    /** The block as a sequence of bytes, and back. */
    lemma BlockBytes()
      requires Block()
      ensures src != null && 1 <= len <= |src[..]| == src.Length && src[..][0] == 1 && src[..][1..len] == src[1..len]
      ensures forall i :: len <= i < |src[..]| ==> src[..][i] == 0
    {
    }

    lemma BytesBlock(m: seq<byte>)
      requires src != null && src[..] == m && 1 <= len <= |m| && m[0] == 1
      requires forall i :: len <= i < |m| ==> m[i] == 0
      ensures Block() && src[1..len] == m[1..len]
    {
      assert forall i :: 0 <= i < src.Length ==> src[i] == m[i];
    }

    method StoreWord(at: nat, w: nat)
      requires Block() && 1 <= at && at + 2 <= len && w < 0x10000
      modifies src
      ensures Block()
      ensures src[1..len] == Put(old(src[1..len]), at - 1, w)
    {
      src[at] := LowByte(w);
      src[at + 1] := HighByte(w);
    }

    method StoreBit(at: nat, k: nat)
      requires Block() && 1 <= at < len && k < 8
      modifies src
      ensures Block()
      ensures src[1..len] == var s := old(src[1..len]); s[at - 1 := WithBit(s[at - 1], k)]
      ensures src[at] == WithBit(old(src[at]), k)
    {
      src[at] := WithBit(src[at], k);
    }

    /** Sets bit `k` of byte `off` of the zero run of `c` bytes whose count is stored at `at`. */
    method SetInZeroRun(at: nat, c: nat, off: nat, k: nat, ghost pre: seq<byte>, ghost post: seq<byte>)
      requires Block() && off < c <= MAX_RUN && k < 8
      requires src[1..len] == pre + TokenBytes(Run(0, c)) + post && at == |pre| + 2
      modifies this`src, this`len, src
      ensures Block() && (src == old(src) || fresh(src))
      ensures src[1..len] == pre + Stored(SplitRun(c, off, k)) + post
    {
      hide Gap, Put, Cut, Stored, SplitRun, WithBit, Block, TokenBytes, ClearThenSet, LowByte, HighByte;
      BlockBytes();
      TokenSize(Run(0, c));
      var nByte := at;
      if c > 1 {
        var nAdded := 1;
        if off == c - 1 {
          SplitAtEnd(pre, c, k, post);
          StoreWord(nByte, off);
          nByte := nByte + 2;
        } else if off > 0 {
          SplitInside(pre, c, off, k, post);
          nAdded := nAdded + 3;
          StoreWord(nByte, off);
          nByte := nByte + 2;
        } else {
          SplitAtStart(pre, c, k, post);
          StoreWord(nByte, c - 1);
          nByte := nByte - 1;
        }
        OpenGap(nByte, nAdded);
        if nAdded > 1 {
          StoreWord(nByte + 2, c - 1 - off);
        }
      } else {
        SplitSingle(pre, k, post);
        CloseGap(nByte, 2);
        nByte := nByte - 1;
      }
      StoreFirstBit(nByte, k, pre + Stored(SplitRun(c, off, k)) + post);
    }

    /** Sets a bit of the zero byte at `at`, which is all that is missing to `want`. */
    method StoreFirstBit(at: nat, k: nat, ghost want: seq<byte>)
      requires Block() && 1 <= at && k < 8 && ClearThenSet(src[1..len], at - 1, k, want)
      modifies src
      ensures Block() && src[1..len] == want
    {
      hide Block, WithBit;
      BlockBytes();
      StoreBit(at, k);
    }

    /** Drops the filled byte at `at` and lengthens the run of `c` bytes 0xFF stored just before it. */
    method MergeBackward(at: nat, c: nat, ghost pre: seq<byte>, ghost post: seq<byte>)
      requires Block() && c < MAX_RUN && at == |pre| + 4
      requires src[1..len] == pre + TokenBytes(Run(255, c)) + [255] + post
      modifies this`len, src
      ensures Block() && src[1..len] == pre + TokenBytes(Run(255, c + 1)) + post
    {
      JoinBefore(pre, c, 255, post);
      CloseGap(at, 1);
      StoreWord(at - 2, c + 1);
    }

    /**
     Drops the filled byte at `at`. The run stored after it moves down by one byte, so its
     count is now at `at + 1`; the code adds one to the word at `at + 2`.
    */
    method MergeForward(at: nat, ghost run: Token, ghost pre: seq<byte>, ghost post: seq<byte>)
      requires Block() && run.Run? && at == |pre| + 1
      requires src[1..len] == pre + [255] + TokenBytes(run) + post
      modifies this`len, src
      ensures src != null && len <= src.Length && src == old(src) && 1 <= len && src[0] == 1
      ensures src[1..len] == pre + BumpWord(TokenBytes(run) + post, 2)
    {
      ghost var s := src[1..len];
      assert Cut(s, |pre|, 1) == pre + (TokenBytes(run) + post);
      CloseGap(at, 1);
      ghost var t := src[1..len];
      var w := (Word(src[at + 2], src[at + 3]) + 1) % 0x10000;
      BumpInBlock(src[..], len, at + 2, w);
      src[at + 2] := LowByte(w);
      src[at + 3] := HighByte(w);
      assert src[1..len] == src[..][1..len];
      BumpTail(pre, TokenBytes(run) + post);
    }

    /** Stores a count of one after the filled byte at `at`. */
    method StartRun(at: nat, ghost pre: seq<byte>, ghost post: seq<byte>)
      requires Block() && at == |pre| + 1
      requires src[1..len] == pre + [255] + post
      modifies this`src, this`len, src
      ensures Block() && (src == old(src) || fresh(src))
      ensures src[1..len] == pre + TokenBytes(Run(255, 1)) + post
    {
      NewRun(pre, post);
      OpenGap(at + 1, 2);
      StoreWord(at + 1, 1);
    }

    /** What the code reads at the place of token `i`. */
    lemma ReadAt(i: nat)
      requires Valid() && len > 0 && i <= |tokens| && 1 + |Stored(tokens[..i])| < len
      ensures i < |tokens| && WellFormed(tokens[i])
      ensures var p := 1 + |Stored(tokens[..i])|;
              && src != null && p + StoredSize(tokens[i]) <= len <= src.Length
              && |Stored(tokens[..i + 1])| == |Stored(tokens[..i])| + StoredSize(tokens[i])
              && |Data(tokens[..i + 1])| == |Data(tokens[..i])| + DataSize(tokens[i])
              && (tokens[i].Lit? ==> src[p] == tokens[i].value)
              && (tokens[i].Run? ==> src[p] == tokens[i].fill && Word(src[p + 1], src[p + 2]) == tokens[i].count)
    {
      var s, p := src[1..len], |Stored(tokens[..i])|;
      hide Stored, Data, Word, AllWellFormed;
      ReadToken(tokens, i);
      assert s[p] == src[p + 1];
      assert tokens[i].Run? ==> s[p + 1] == src[p + 2] && s[p + 2] == src[p + 3];
    }

    /** What the code has read when it reaches the end. */
    lemma ReadEnd(i: nat)
      requires Valid() && len > 0 && i <= |tokens| && 1 + |Stored(tokens[..i])| >= len
      ensures i == |tokens| && tokens[..i] == tokens
    {
      hide Stored;
      StoredPrefix(tokens, i);
      ReadAll(tokens, i);
    }

    /** Bit `n` of the array that the run-length form stands for. */
    method GetAt(n: nat) returns (bit: bool)
      requires Valid()
      ensures bit == BitAt(Plain(), n)
    {
      var nDesLen, nDesByte := 0, n / 8;
      if len > 0 {
        var nByte := 1;
        ghost var i := 0;
        FullHasBit(n % 8);
        ZeroHasNoBit(n % 8);
        hide Stored, Data, Word, Locate, NatBit, AllWellFormed, Valid, Block;
        while nByte < len
          invariant i <= |tokens| && nByte == 1 + |Stored(tokens[..i])|
          invariant nDesLen == |Data(tokens[..i])| <= nDesByte
        {
          ReadAt(i);
          if src[nByte] == 0 || src[nByte] == 255 {
            var nRunLength := Word(src[nByte + 1], src[nByte + 2]);
            if nDesLen + nRunLength > nDesByte {
              Found(i, n);
              return src[nByte] == 255;
            }
            nDesLen := nDesLen + nRunLength;
            nByte := nByte + 3;
          } else {
            if nDesLen == nDesByte {
              Found(i, n);
              return HasBit(src[nByte], n % 8);
            }
            nDesLen := nDesLen + 1;
            nByte := nByte + 1;
          }
          i := i + 1;
        }
        ReadEnd(i);
      } else {
        NothingStored();
      }
      return false;
    }

    lemma Found(i: nat, n: nat)
      requires Valid() && i < |tokens|
      requires |Data(tokens[..i])| <= n / 8 < |Data(tokens[..i])| + DataSize(tokens[i])
      ensures Locate(tokens, n / 8) == i && n / 8 < |Plain()|
      ensures Plain()[n / 8] == if tokens[i].Run? then tokens[i].fill else tokens[i].value
    {
      hide Data, Stored, Locate;
      FoundAt(tokens, i, n);
    }

    /** What the code reads at the place of token `i`, and what it goes on with. */
    lemma ReadNext(i: nat, nByte: nat, nDesLen: nat, nRunLength: nat)
      requires Valid() && len > 0 && i <= |tokens|
      requires nByte == 1 + |Stored(tokens[..i])| < len && nDesLen == |Data(tokens[..i])|
      ensures src != null && i < |tokens| && WellFormed(tokens[i]) && nByte < len <= src.Length
      ensures if src[nByte] == 0 || src[nByte] == 255 then
                && nByte + 2 < len && tokens[i] == Run(src[nByte], Word(src[nByte + 1], src[nByte + 2]))
                && nByte + 3 == 1 + |Stored(tokens[..i + 1])|
                && nDesLen + tokens[i].count == |Data(tokens[..i + 1])|
                && Tracks(tokens, i + 1, src[nByte], tokens[i].count)
              else
                && tokens[i] == Lit(src[nByte])
                && nByte + 1 == 1 + |Stored(tokens[..i + 1])| && nDesLen + 1 == |Data(tokens[..i + 1])|
                && Tracks(tokens, i + 1, 0, nRunLength)
    {
      hide Stored, Data, Word, Valid, Block, Tracks, AllWellFormed;
      ReadAt(i);
      TracksNext(tokens, i, nRunLength);
    }

    lemma FoundRun(i: nat, n: nat)
      requires Valid() && i < |tokens| && tokens[i].Run? && WellFormed(tokens[i])
      requires |Data(tokens[..i])| <= n / 8 < |Data(tokens[..i])| + DataSize(tokens[i])
      ensures Locate(tokens, n / 8) == i && (BitAt(Plain(), n) <==> tokens[i].fill == 255)
    {
      hide Data, Stored, Locate, BitAt;
      Found(i, n);
      if tokens[i].fill == 255 {
        SetAlready(tokens, n);
      } else {
        ClearInRun(tokens, n);
      }
    }

    lemma FoundLiteral(i: nat, n: nat)
      requires Valid() && i < |tokens| && tokens[i].Lit? && |Data(tokens[..i])| == n / 8
      ensures Locate(tokens, n / 8) == i && (BitAt(Plain(), n) <==> HasBit(tokens[i].value, n % 8))
    {
      hide Data, Stored, Locate, BitAt, HasBit;
      Found(i, n);
      BitOfLiteral(tokens, n);
    }

    /** Adds `n` zero bytes at the end, allocating the block and its format byte if there is none. */
    method Extend(n: nat)
      requires Valid()
      modifies this`src, this`len
      ensures Block() && fresh(src)
      ensures src[1..len] == Stored(tokens) + Zeros(n)
    {
      if len == 0 {
        len := n + 1;
        src := AllocPtr(len);
        src[0] := 1;
        assert Stored(tokens) == [];
      } else {
        src := ReAllocPtr(src, len + n);
        len := len + n;
      }
    }

    /** Writes one count, `n` runs before the end; the byte 0x00 before it is there already. */
    method WriteCount(n: nat, c: nat, ghost done: seq<byte>)
      requires Block() && n > 0 && c <= MAX_RUN
      requires src[1..len] == done + Zeros(3 * n + 1)
      modifies src
      ensures Block()
      ensures src[1..len] == done + TokenBytes(Run(0, c)) + Zeros(3 * (n - 1) + 1)
    {
      WriteRun(done, c, n);
      assert |done| + 3 * n + 1 == len - 1;
      hide Put;
      StoreWord(len - n * 3, c);
    }

    /** Writes the counts of the zero runs that skip `gap` bytes; the bytes are zero already. */
    method FillRuns(nRun: nat, gap: nat, ghost was: seq<byte>)
      requires Block() && nRun == |ZeroRuns(gap)|
      requires src[1..len] == was + Zeros(3 * nRun + 1)
      modifies src
      ensures Block()
      ensures src[1..len] == was + Stored(ZeroRuns(gap)) + [0]
    {
      var n, nLength: int := nRun, gap;
      ghost var done, goal := was, was + Stored(ZeroRuns(gap));
      AllRunsLeft(gap);
      hide RunBytesLeft, RunsLeft, ZeroRuns, Stored, Zeros, TokenBytes, Fill;
      while n > 0
        invariant Block() && n == RunsLeft(nLength)
        invariant src[1..len] == done + Zeros(3 * n + 1)
        invariant done + RunBytesLeft(nLength) == goal
      {
        var c := if nLength >= MAX_RUN then MAX_RUN else nLength;
        FirstZeroRun(nLength);
        WriteCount(n, c, done);
        Assoc(done, TokenBytes(Run(0, c)), RunBytesLeft(nLength - MAX_RUN));
        done := done + TokenBytes(Run(0, c));
        n := n - 1;
        nLength := nLength - MAX_RUN;
      }
      NoRunsLeft(nLength);
      assert done + [] == done;
      assert 3 * n + 1 == 1;
      OneZero();
    }

    /** Appends the zero runs that skip `gap` bytes and a byte with bit `k` set. */
    method AppendBit(gap: nat, k: nat)
      requires Valid() && k < 8
      modifies this`src, this`len
      ensures Block() && fresh(src)
      ensures src[1..len] == Stored(tokens) + Stored(ZeroRuns(gap)) + [WithBit(0, k)]
    {
      var nRun := gap / MAX_RUN + if gap % MAX_RUN != 0 then 1 else 0;
      ghost var was := Stored(tokens);
      Extend(3 * nRun + 1);
      FillRuns(nRun, gap, was);
      hide Stored, ZeroRuns;
      StoreBit(len - 1, k);
    }

    /** The bytes in use after the one at `at`. */
    lemma Peek(at: nat, pre: seq<byte>, x: byte, post: seq<byte>)
      requires Block() && src[1..len] == pre + [x] + post && at == |pre| + 1
      ensures |post| == len - at - 1
      ensures |post| > 0 ==> src[at + 1] == post[0]
      ensures |post| > 1 ==> src[at + 2] == post[1]
      ensures |post| > 2 ==> src[at + 3] == post[2]
    {
      var s := src[1..len];
      assert |post| > 0 ==> s[at] == post[0];
      assert |post| > 1 ==> s[at + 1] == post[1];
      assert |post| > 2 ==> s[at + 2] == post[2];
    }

    /** Whether the bytes after the filled byte at `at` are a run of 0xFF that can take one more. */
    method OpenRunFollows(at: nat, ghost ts: seq<Token>, ghost i: nat, ghost pre: seq<byte>) returns (r: bool)
      requires Block() && AllWellFormed(ts) && i < |ts| && at == |pre| + 1
      requires src[1..len] == pre + [255] + Stored(ts[i + 1..])
      ensures r == OpenRunAfter(ts, i)
    {
      hide Stored, Word, OpenRunAfter, TokenBytes, AllWellFormed;
      NextPlace(ts, i);
      Peek(at, pre, 255, Stored(ts[i + 1..]));
      r := at + 2 < len && src[at + 1] == 255 && Word(src[at + 2], src[at + 3]) != MAX_RUN;
    }

    /** The byte at `at`, token `i`, is now 0xFF: it joins the run before it, or the run after it, or becomes a run. */
    method FillUp(at: nat, ghost ts: seq<Token>, ghost i: nat, byType: byte, nRunLength: nat)
      requires Block() && AllWellFormed(ts) && i < |ts| && at == 1 + |Stored(ts[..i])|
      requires src[1..len] == Stored(ts[..i]) + [255] + Stored(ts[i + 1..])
      requires Tracks(ts, i, byType, nRunLength)
      modifies this`src, this`len, src
      ensures src != null && 1 <= len <= src.Length && src[0] == 1
      ensures if OpenRunBefore(ts, i) then
                && Block()
                && src[1..len] == Stored(ts[..i - 1]) + TokenBytes(Run(255, ts[i - 1].count + 1)) + Stored(ts[i + 1..])
              else if OpenRunAfter(ts, i) then
                src[1..len] == Stored(ts[..i]) + BumpWord(TokenBytes(ts[i + 1]) + Stored(ts[i + 2..]), 2)
              else
                Block() && src[1..len] == Stored(ts[..i]) + TokenBytes(Run(255, 1)) + Stored(ts[i + 1..])
    {
      hide Stored, Word, TokenBytes, BumpWord;
      if nRunLength != MAX_RUN && byType == 255 {
        RunBeforePlace(ts, i);
        MergeBackward(at, nRunLength, Stored(ts[..i - 1]), Stored(ts[i + 1..]));
      } else {
        var forward := OpenRunFollows(at, ts, i, Stored(ts[..i]));
        NextPlace(ts, i);
        if forward {
          Assoc(Stored(ts[..i]) + [255], TokenBytes(ts[i + 1]), Stored(ts[i + 2..]));
          MergeForward(at, ts[i + 1], Stored(ts[..i]), Stored(ts[i + 2..]));
        } else {
          StartRun(at, Stored(ts[..i]), Stored(ts[i + 1..]));
        }
      }
    }

    /** Sets bit `k` of the literal stored at `at`, token `i`. */
    method SetInLiteralAt(at: nat, ghost i: nat, k: nat, byType: byte, nRunLength: nat)
      requires Valid() && i < |tokens| && tokens[i].Lit? && k < 8
      requires at == 1 + |Stored(tokens[..i])| && at < len
      requires Tracks(tokens, i, byType, nRunLength)
      modifies this`src, this`len, src
      ensures src != null && 1 <= len <= src.Length && src[0] == 1
      ensures var full := WithBit(tokens[i].value, k) == 255 && !OpenRunBefore(tokens, i) && OpenRunAfter(tokens, i);
              && (full ==>
                    src[1..len]
                    == Stored(tokens[..i]) + BumpWord(TokenBytes(tokens[i + 1]) + Stored(tokens[i + 2..]), 2))
              && (!full ==> Block() && src[1..len] == Stored(SetInLiteral(tokens, i, k)))
    {
      ghost var ts, b := tokens, WithBit(tokens[i].value, k);
      LiteralPlace(ts, i);
      SetInLiteralBytes(ts, i, k);
      hide Stored, TokenBytes, WithBit, BumpWord, SetInLiteral;
      SetMiddle(Stored(ts[..i]), ts[i].value, Stored(ts[i + 1..]), b);
      StoreBit(at, k);
      if src[at] == 255 {
        FillUp(at, ts, i, byType, nRunLength);
      }
    }

    /**
     The buffer after bit `n`, clear in `ts`, was set: what the code leaves, and when that is
     the form of the array with the bit set.
    */
    ghost predicate IsSet(ts: seq<Token>, n: nat)
      requires AllWellFormed(ts) && !BitAt(Data(ts), n)
      reads this, src
    {
      && src != null && 1 <= len <= src.Length && src[0] == 1
      && src[1..len] == StoredAfterSet(ts, n)
      && (Reads(src[1..len], SetBitAt(Data(ts), n)) <==> !MergesForward(ts, n))
      && (!MergesForward(ts, n) ==> Valid() && Plain() == SetBitAt(Data(ts), n))
    }

    /** The buffer holds the intended token list. */
    lemma Intended(ts: seq<Token>, n: nat)
      requires AllWellFormed(ts) && !BitAt(Data(ts), n) && !MergesForward(ts, n)
      requires Block() && tokens == SetTokens(ts, n) && src[1..len] == Stored(tokens)
      ensures IsSet(ts, n)
    {
      hide Stored, Data, Locate, SetTokens, BitAt, SetBitAt, MergesForward, AllWellFormed, Reads;
      SetTokensSetsBit(ts, n);
      SetRightIffNoForwardMerge(ts, n);
    }

    /** The buffer holds what the forward merge leaves. */
    lemma Merged(ts: seq<Token>, n: nat)
      requires AllWellFormed(ts) && !BitAt(Data(ts), n) && MergesForward(ts, n)
      requires src != null && 1 <= len <= src.Length && src[0] == 1 && src[1..len] == StoredAfterSet(ts, n)
      ensures IsSet(ts, n)
    {
      hide Stored, Data, Locate, StoredAfterSet, BitAt, SetBitAt, MergesForward, AllWellFormed, Reads;
      SetRightIffNoForwardMerge(ts, n);
    }

    method SetInRunAt(at: nat, c: nat, off: nat, n: nat, ghost i: nat)
      requires Valid() && len > 0 && !BitAt(Plain(), n)
      requires i == Locate(tokens, n / 8) < |tokens| && tokens[i] == Run(0, c)
      requires off == n / 8 - |Data(tokens[..i])| && at == 2 + |Stored(tokens[..i])|
      modifies this, src
      ensures IsSet(old(tokens), n)
    {
      hide Stored, Data, Locate, SetTokens, BitAt, AllWellFormed, SetInRun, MergesForward, IsSet, Block;
      ghost var ts, k := tokens, n % 8;
      UnfoldValid();
      OneWellFormed(ts, i);
      AfterSetInRun(ts, n);
      RunPlace(ts, i, off, k);
      SetInZeroRun(at, c, off, n % 8, Stored(ts[..i]), Stored(ts[i + 1..]));
      tokens := SetTokens(ts, n);
      Intended(ts, n);
    }

    method SetInLiteralOf(at: nat, n: nat, byType: byte, nRunLength: nat, ghost i: nat)
      requires Valid() && at < len && !BitAt(Plain(), n)
      requires i == Locate(tokens, n / 8) < |tokens| && tokens[i].Lit? && !HasBit(tokens[i].value, n % 8)
      requires at == 1 + |Stored(tokens[..i])|
      requires Tracks(tokens, i, byType, nRunLength)
      modifies this, src
      ensures IsSet(old(tokens), n)
    {
      ghost var ts := tokens;
      AfterSetInLiteral(ts, n);
      hide Stored, Data, Locate, SetTokens, StoredAfterSet, BitAt, SetInLiteral, MergesForward;
      hide BumpWord, IsSet, Valid, Block, HasBit, WithBit;
      SetInLiteralAt(at, i, n % 8, byType, nRunLength);
      if MergesForward(ts, n) {
        Merged(ts, n);
      } else {
        tokens := SetTokens(ts, n);
        Intended(ts, n);
      }
    }

    method SetPastEndAt(gap: nat, n: nat)
      requires Valid() && |Plain()| <= n / 8 && gap == n / 8 - |Plain()| && !BitAt(Plain(), n)
      modifies this`src, this`len, this`tokens
      ensures IsSet(old(tokens), n)
    {
      ghost var ts := tokens;
      AfterAppend(ts, gap, n);
      hide Stored, Data, Locate, SetTokens, MergesForward, ZeroRuns, AllWellFormed, WithBit, IsSet, Valid, Block, BitAt;
      AppendBit(gap, n % 8);
      tokens := SetTokens(ts, n);
      Intended(ts, n);
    }

    /**
     Sets bit `n`. It returns false, and changes nothing, if and only if the bit is set
     already. Otherwise the bytes read as the array with the bit set if and only if the code
     does not merge the byte into the run after it.
    */
    method SetAt(n: nat) returns (changed: bool)
      requires Valid()
      modifies this, src
      ensures changed == !BitAt(old(Plain()), n)
      ensures !changed ==> Valid() && tokens == old(tokens) && src == old(src) && len == old(len)
      ensures !changed && src != null ==> src[..] == old(src[..])
      ensures changed ==> IsSet(old(tokens), n)
    {
      var nDesLen, nDesByte := 0, n / 8;
      hide IsSet, Data, Word, Locate, NatBit, BitAt, Stored, AllWellFormed, Valid, Block, Tracks, HasBit;
      if len > 0 {
        var nByte, nRunLength: nat, byType: byte := 1, 0, 0;
        NothingTracked(tokens);
        ghost var i := 0;
        while nByte < len
          invariant Valid() && len > 0 && unchanged(this) && (src != null ==> unchanged(src))
          invariant i <= |tokens| && nByte == 1 + |Stored(tokens[..i])|
          invariant nDesLen == |Data(tokens[..i])| <= nDesByte
          invariant Tracks(tokens, i, byType, nRunLength)
        {
          ReadNext(i, nByte, nDesLen, nRunLength);
          if src[nByte] == 0 || src[nByte] == 255 {
            byType := src[nByte];
            nByte := nByte + 1;
            nRunLength := Word(src[nByte], src[nByte + 1]);
            if nDesLen + nRunLength > nDesByte {
              FoundRun(i, n);
              if byType == 255 {
                return false;
              }
              SetInRunAt(nByte, nRunLength, nDesByte - nDesLen, n, i);
              return true;
            }
            nDesLen := nDesLen + nRunLength;
            nByte := nByte + 2;
          } else {
            if nDesLen == nDesByte {
              FoundLiteral(i, n);
              if HasBit(src[nByte], n % 8) {
                return false;
              }
              SetInLiteralOf(nByte, n, byType, nRunLength, i);
              return true;
            }
            nDesLen := nDesLen + 1;
            nByte := nByte + 1;
            byType := 0;
          }
          i := i + 1;
        }
        ReadEnd(i);
      } else {
        NothingYet();
      }
      PastEndClear(tokens, n);
      SetPastEndAt(nDesByte - nDesLen, n);
      return true;
    }

    method Push(b: byte)
      requires Block() && len < src.Length
      modifies src, this`len
      ensures Block() && len == old(len) + 1 && src[1..len] == old(src[1..len]) + [b]
    {
      src[len] := b;
      len := len + 1;
    }

    method PushWord(w: nat)
      requires Block() && len + 2 <= src.Length && w < 0x10000
      modifies src, this`len
      ensures Block() && len == old(len) + 2 && src[1..len] == old(src[1..len]) + [LowByte(w), HighByte(w)]
    {
      src[len] := LowByte(w);
      src[len + 1] := HighByte(w);
      len := len + 2;
    }

    /** Makes room for the next token: at least five bytes. */
    method Reserve(nLength: nat) returns (n: nat)
      requires Block() && len <= nLength <= src.Length
      modifies this`src
      ensures Block() && (src == old(src) || fresh(src))
      ensures src[1..len] == old(src[1..len]) && len + 5 <= n <= src.Length
      ensures old(Valid()) ==> Valid()
    {
      n := nLength;
      if len + 5 > n {
        n := n + 1024;
        GrowBlock(n);
      }
    }

    /**
     Replaces the buffer by the run-length form of `s` without its trailing zero bytes. No run could
     be longer, so the form is the only one of its kind; if nothing is left there is no buffer.
    */
    method Compress(s: seq<byte>)
      modifies this
      ensures Valid() && Plain() == Trim(s) && Maximal(tokens)
      ensures if Trim(s) == [] then src == null && len == 0 else len > 0
    {
      var nSrcLen := TrimmedLength(s);
      tokens := [];
      NothingStored();
      if nSrcLen == 0 {
        src, len := null, 0;
        return;
      }
      var nLength: nat := nSrcLen;
      src := AllocPtr(nLength);
      src[0] := 1;
      len := 1;
      var nByte: nat := 0;
      Start();
      hide Stored, Data, Trim, Valid, Block;
      while nByte < nSrcLen
        invariant Valid() && fresh(src) && 0 < len <= nLength <= src.Length
        invariant nByte <= nSrcLen && Data(tokens) == s[..nByte]
        invariant Maximal(tokens) && RunIsOver(tokens, s, nByte, nSrcLen)
      {
        UnfoldValid();
        nLength := Reserve(nLength);
        nByte := CompressToken(s, nByte, nSrcLen);
      }
    }

    /** Writes the token for the bytes at `at`: a literal or a whole run. */
    method CompressToken(s: seq<byte>, at: nat, end: nat) returns (next: nat)
      requires Valid() && 0 < len && len + 5 <= src.Length && at < end <= |s| && Data(tokens) == s[..at]
      requires Maximal(tokens) && RunIsOver(tokens, s, at, end)
      modifies src, this`len, this`tokens
      ensures Valid() && 0 < len <= old(len) + 3 && at < next <= end && Data(tokens) == s[..next]
      ensures Maximal(tokens) && RunIsOver(tokens, s, next, end)
    {
      hide Stored, Data, Valid, AllWellFormed, Block, TokenData;
      var byType := s[at];
      if byType == 0 || byType == 255 {
        var nRunLength := RunLengthAt(s, at, end);
        AppendRun(byType, nRunLength);
        next := at + nRunLength;
      } else {
        AppendLiteral(byType);
        next := at + 1;
      }
      assert s[..at] + s[at..next] == s[..next];
    }

    method AppendLiteral(b: byte)
      requires Valid() && 0 < len < src.Length && WellFormed(Lit(b))
      modifies src, this`len, this`tokens
      ensures Valid() && len == old(len) + 1 && Data(tokens) == old(Data(tokens)) + [b]
      ensures tokens == old(tokens) + [Lit(b)]
    {
      UnfoldValid();
      ghost var before := src[1..len];
      LiteralBytes(before, b);
      hide Stored, Data, Valid, AllWellFormed, Block, TokenBytes;
      Push(b);
      AddToken(Lit(b), before);
    }

    method AppendRun(b: byte, c: nat)
      requires Valid() && 0 < len && len + 3 <= src.Length && WellFormed(Run(b, c))
      modifies src, this`len, this`tokens
      ensures Valid() && len == old(len) + 3 && Data(tokens) == old(Data(tokens)) + Fill(b, c)
      ensures tokens == old(tokens) + [Run(b, c)]
    {
      UnfoldValid();
      ghost var before := src[1..len];
      RunBytes(before, b, c);
      hide Stored, Data, Valid, AllWellFormed, Block, TokenBytes, LowByte, HighByte;
      Push(b);
      PushWord(c);
      AddToken(Run(b, c), before);
    }

    lemma Start()
      requires tokens == [] && Block() && len == 1
      ensures Valid() && Data(tokens) == []
    {
      NothingStored();
    }

    lemma UnfoldValid()
      requires Valid() && len > 0
      ensures AllWellFormed(tokens) && Block() && src[1..len] == Stored(tokens)
    {
    }

    /** The bytes of one more token have been written. */
    ghost method AddToken(t: Token, before: seq<byte>)
      requires AllWellFormed(tokens) && WellFormed(t) && before == Stored(tokens)
      requires Block() && src[1..len] == before + TokenBytes(t)
      modifies this`tokens
      ensures Valid() && Data(tokens) == Data(old(tokens)) + TokenData(t) && tokens == old(tokens) + [t]
    {
      Append(tokens, [t]);
      Single(t);
      hide Stored, Data;
      tokens := tokens + [t];
    }

    /**
     Replaces the buffer by the bytes that it stands for, or by those of its first `i` literals
     and runs if that is already the wanted length; -1 asks for all of them.
    */
    method Decompress(nMaxLen: int) returns (ghost i: nat)
      requires Valid()
      modifies this`src, this`len
      ensures i <= |tokens| && len == |Data(tokens[..i])|
      ensures nMaxLen == -1 || len < nMaxLen ==> Data(tokens[..i]) == old(Plain())
      ensures i > 0 ==> nMaxLen == -1 || |Data(tokens[..i - 1])| < nMaxLen
      ensures len > 0 ==> src != null && len <= src.Length && src[..len] == Data(tokens[..i])
      ensures src != null && (src != old(src) || len > 0) ==> forall i :: len <= i < src.Length ==> src[i] == 0
    {
      i := 0;
      if len == 0 {
        NothingYet();
        return;
      }
      var nDesLen: nat, nLength: nat := 0, len;
      var des := AllocPtr(nLength);
      var nByte := 1;
      NothingTracked(tokens);
      hide Stored, Data, Word, AllWellFormed, Valid, Block, TokenData;
      while nByte < len && (nMaxLen == -1 || nDesLen < nMaxLen)
        invariant Valid() && unchanged(this) && unchanged(src) && fresh(des) && nLength <= des.Length
        invariant i <= |tokens| && nByte == 1 + |Stored(tokens[..i])|
        invariant i > 0 ==> nMaxLen == -1 || |Data(tokens[..i - 1])| < nMaxLen
        invariant nDesLen == |Data(tokens[..i])| && HoldsPlain(des, Data(tokens[..i]))
      {
        des, nLength, nDesLen, nByte := ExpandToken(des, nLength, nDesLen, nByte, i);
        i := i + 1;
      }
      if nByte >= len {
        ReadEnd(i);
      }
      len := nDesLen;
      src := ReAllocPtr(des, nDesLen);
    }

    /** Writes the bytes of the token at `nByte` behind those of the tokens before it. */
    method ExpandToken(des: array<byte>, nLength: nat, nDesLen: nat, nByte: nat, ghost i: nat)
      returns (des': array<byte>, nLength': nat, nDesLen': nat, nByte': nat)
      requires Valid() && 0 < nByte < len && i <= |tokens| && nByte == 1 + |Stored(tokens[..i])|
      requires nDesLen == |Data(tokens[..i])| && HoldsPlain(des, Data(tokens[..i])) && nLength <= des.Length
      requires src != null && des != src
      modifies des
      ensures i < |tokens| && nByte < nByte' == 1 + |Stored(tokens[..i + 1])|
      ensures nDesLen' == |Data(tokens[..i + 1])| && HoldsPlain(des', Data(tokens[..i + 1])) && nLength' <= des'.Length
      ensures des' == des || fresh(des')
    {
      hide Stored, Data, Word, AllWellFormed, Valid, Block, TokenData, HoldsPlain;
      ReadAt(i);
      DataGrows(tokens, i);
      nByte' := nByte;
      if src[nByte'] == 0 || src[nByte'] == 255 {
        var byType := src[nByte'];
        nByte' := nByte' + 1;
        var nRunLength := Word(src[nByte'], src[nByte' + 1]);
        nByte' := nByte' + 2;
        des', nLength' := GrowPlain(des, nDesLen, nRunLength, nLength, Data(tokens[..i]));
        PutFill(des', nDesLen, byType, nRunLength, Data(tokens[..i]));
        nDesLen' := nDesLen + nRunLength;
      } else {
        des', nLength' := GrowPlain(des, nDesLen, 0, nLength, Data(tokens[..i]));
        PutByte(des', nDesLen, src[nByte'], Data(tokens[..i]));
        nDesLen' := nDesLen + 1;
        nByte' := nByte' + 1;
      }
    }

    lemma NothingYet()
      requires Valid() && len == 0
      ensures Plain() == []
    {
      NothingStored();
    }
  }

  /** The type and count that the code remembers from the token before `i`. */
  ghost predicate Tracks(ts: seq<Token>, i: nat, byType: byte, nRunLength: nat)
    requires i <= |ts|
  {
    && ((byType == 255 && nRunLength != MAX_RUN) <==> OpenRunBefore(ts, i))
    && (OpenRunBefore(ts, i) ==> nRunLength == ts[i - 1].count)
  }

  lemma TracksNext(ts: seq<Token>, i: nat, nRunLength: nat)
    requires i < |ts|
    ensures ts[i].Run? ==> Tracks(ts, i + 1, ts[i].fill, ts[i].count)
    ensures ts[i].Lit? ==> Tracks(ts, i + 1, 0, nRunLength)
  {
  }

  lemma NothingTracked(ts: seq<Token>)
    ensures Tracks(ts, 0, 0, 0)
    ensures Stored(ts[..0]) == [] && Data(ts[..0]) == []
  {
    NothingStored();
  }

  /** The bytes without the zero bytes at the end. */
  function Trim(s: seq<byte>): (r: seq<byte>)
    ensures |r| <= |s| && r == s[..|r|] && (r != [] ==> r[|r| - 1] != 0)
    ensures forall i :: |r| <= i < |s| ==> s[i] == 0
  {
    if s != [] && s[|s| - 1] == 0 then Trim(s[..|s| - 1]) else s
  }

  /** Read as bits that go on with zeros for ever, the array is the same without its trailing zero bytes. */
  lemma {:induction false} TrimKeepsBits(s: seq<byte>, n: nat)
    ensures BitAt(Trim(s), n) == BitAt(s, n)
  {
    if s != [] && s[|s| - 1] == 0 {
      TrimKeepsBits(s[..|s| - 1], n);
      ZeroHasNoBit(n % 8);
    }
  }

  lemma RunBytes(before: seq<byte>, b: byte, c: nat)
    requires b == 0 || b == 255
    ensures before + [b] + [LowByte(c), HighByte(c)] == before + TokenBytes(Run(b, c))
  {
  }

  lemma LiteralBytes(before: seq<byte>, b: byte)
    ensures before + [b] == before + TokenBytes(Lit(b))
  {
  }

  lemma DataGrows(ts: seq<Token>, i: nat)
    requires i < |ts|
    ensures Data(ts[..i + 1]) == Data(ts[..i]) + (if ts[i].Lit? then [ts[i].value] else Fill(ts[i].fill, ts[i].count))
  {
    assert ts[..i + 1] == ts[..i] + [ts[i]];
    Append(ts[..i], [ts[i]]);
    Single(ts[i]);
  }

  lemma StoredPrefix(ts: seq<Token>, i: nat)
    requires i <= |ts|
    ensures |Stored(ts[..i])| <= |Stored(ts)|
  {
    assert ts == ts[..i] + ts[i..];
    Append(ts[..i], ts[i..]);
  }

  lemma PastEndClear(ts: seq<Token>, n: nat)
    ensures |Data(ts)| <= n / 8 ==> !BitAt(Data(ts), n)
  {
  }

  lemma SetAlready(ts: seq<Token>, n: nat)
    requires n / 8 < |Data(ts)| && Data(ts)[n / 8] == 255
    ensures BitAt(Data(ts), n)
  {
    FullHasBit(n % 8);
  }

  lemma BitOfLiteral(ts: seq<Token>, n: nat)
    requires n / 8 < |Data(ts)|
    ensures BitAt(Data(ts), n) == HasBit(Data(ts)[n / 8], n % 8)
  {
  }

  lemma ClearInRun(ts: seq<Token>, n: nat)
    requires n / 8 < |Data(ts)| && Data(ts)[n / 8] == 0
    ensures !BitAt(Data(ts), n)
  {
    ZeroHasNoBit(n % 8);
  }

  lemma RunPlace(ts: seq<Token>, i: nat, off: nat, k: nat)
    requires AllWellFormed(ts) && i < |ts| && ts[i].Run? && off < ts[i].count && k < 8
    ensures Stored(ts) == Stored(ts[..i]) + TokenBytes(ts[i]) + Stored(ts[i + 1..])
    ensures Stored(SetInRun(ts, i, off, k)) ==
            Stored(ts[..i]) + Stored(SplitRun(ts[i].count, off, k)) + Stored(ts[i + 1..])
  {
    SplitAt(ts, i);
    Append(ts[..i] + SplitRun(ts[i].count, off, k), ts[i + 1..]);
    Append(ts[..i], SplitRun(ts[i].count, off, k));
  }

  /** The stored bytes of the run branches are those of the token list they stand for. */
  lemma AfterSetInRun(ts: seq<Token>, n: nat)
    requires AllWellFormed(ts) && !BitAt(Data(ts), n)
    requires var i := Locate(ts, n / 8); i < |ts| && ts[i].Run?
    ensures var i := Locate(ts, n / 8);
            && |Data(ts[..i])| <= n / 8 && n / 8 - |Data(ts[..i])| < ts[i].count
            && SetTokens(ts, n) == SetInRun(ts, i, n / 8 - |Data(ts[..i])|, n % 8)
            && !MergesForward(ts, n)
  {
    LocateBounds(ts, n / 8);
  }

  lemma AfterSetInLiteral(ts: seq<Token>, n: nat)
    requires AllWellFormed(ts) && !BitAt(Data(ts), n)
    requires var i := Locate(ts, n / 8); i < |ts| && ts[i].Lit? && !HasBit(ts[i].value, n % 8)
    ensures var i, k := Locate(ts, n / 8), n % 8;
            && MergesForward(ts, n) == (WithBit(ts[i].value, k) == 255 && !OpenRunBefore(ts, i) && OpenRunAfter(ts, i))
            && (MergesForward(ts, n) ==>
                  StoredAfterSet(ts, n) == Stored(ts[..i]) + BumpWord(TokenBytes(ts[i + 1]) + Stored(ts[i + 2..]), 2))
            && (!MergesForward(ts, n) ==> SetTokens(ts, n) == SetInLiteral(ts, i, k))
  {
    hide Data, SetInLiteral, AllWellFormed, Stored;
  }

  lemma AfterAppend(ts: seq<Token>, gap: nat, n: nat)
    requires AllWellFormed(ts) && |Data(ts)| <= n / 8 && gap == n / 8 - |Data(ts)|
    ensures !BitAt(Data(ts), n) && !MergesForward(ts, n)
    ensures Stored(SetTokens(ts, n)) == Stored(ts) + Stored(ZeroRuns(gap)) + [WithBit(0, n % 8)]
  {
    AppendIsLast(ts, gap, n);
    var z, l := ZeroRuns(gap), [Lit(WithBit(0, n % 8))];
    Single(l[0]);
    assert TokenBytes(l[0]) == [WithBit(0, n % 8)];
    hide Stored, Data, ZeroRuns, WithBit, SetTokens, TokenBytes, Locate;
    Append(ts + z, l);
    Append(ts, z);
  }

  lemma AppendIsLast(ts: seq<Token>, gap: nat, n: nat)
    requires AllWellFormed(ts) && |Data(ts)| <= n / 8 && gap == n / 8 - |Data(ts)|
    ensures !BitAt(Data(ts), n) && !MergesForward(ts, n)
    ensures SetTokens(ts, n) == ts + ZeroRuns(gap) + [Lit(WithBit(0, n % 8))]
  {
    hide Data, ZeroRuns, WithBit, Stored;
    assert ts[..|ts|] == ts;
    LocateAt(ts, n / 8, |ts|);
  }

  lemma NothingStored()
    ensures Stored([]) == [] && Data([]) == []
  {
  }

  lemma LiteralPlace(ts: seq<Token>, i: nat)
    requires i < |ts| && ts[i].Lit?
    ensures Stored(ts) == Stored(ts[..i]) + [ts[i].value] + Stored(ts[i + 1..])
  {
    SplitAt(ts, i);
  }

  lemma RunBeforePlace(ts: seq<Token>, i: nat)
    requires 0 < i < |ts| && ts[i - 1].Run?
    ensures Stored(ts[..i]) == Stored(ts[..i - 1]) + TokenBytes(ts[i - 1])
  {
    assert ts[..i] == ts[..i - 1] + [ts[i - 1]];
    Append(ts[..i - 1], [ts[i - 1]]);
    Single(ts[i - 1]);
  }

  lemma TokenFirst(t: Token, q: seq<byte>)
    requires WellFormed(t)
    ensures var s := TokenBytes(t) + q;
            && (t.Lit? ==> s[0] == t.value != 255)
            && (t.Run? ==> s[0] == t.fill && Word(s[1], s[2]) == t.count)
  {
    hide Word, LowByte, HighByte;
    if t.Run? {
      CountOfBytes(t.count);
    }
  }

  /** What the code sees when it looks past token `i` for a run to lengthen. */
  lemma NextPlace(ts: seq<Token>, i: nat)
    requires AllWellFormed(ts) && i < |ts|
    ensures var s := Stored(ts[i + 1..]);
            && (i + 1 < |ts| ==> s == TokenBytes(ts[i + 1]) + Stored(ts[i + 2..]))
            && (OpenRunAfter(ts, i) <==> |s| >= 3 && s[0] == 255 && Word(s[1], s[2]) != MAX_RUN)
            && (|s| > 1 && s[0] == 255 ==> |s| >= 3)
  {
    var rest := ts[i + 1..];
    if rest == [] {
      assert Stored(rest) == [];
    } else {
      StoredCons(rest);
      var t, tail := ts[i + 1], Stored(ts[i + 2..]);
      assert WellFormed(t);
      assert rest[1..] == ts[i + 2..] && rest[0] == t;
      hide Stored, Word, AllWellFormed, LowByte, HighByte;
      TokenFirst(t, tail);
    }
  }

  lemma SetInLiteralBytes(ts: seq<Token>, i: nat, k: nat)
    requires i < |ts| && ts[i].Lit? && k < 8
    ensures var b := WithBit(ts[i].value, k);
            Stored(SetInLiteral(ts, i, k)) ==
            if b != 255 then Stored(ts[..i]) + [b] + Stored(ts[i + 1..])
            else if OpenRunBefore(ts, i) then
              Stored(ts[..i - 1]) + TokenBytes(Run(255, ts[i - 1].count + 1)) + Stored(ts[i + 1..])
            else Stored(ts[..i]) + TokenBytes(Run(255, 1)) + Stored(ts[i + 1..])
  {
    var b := WithBit(ts[i].value, k);
    if b != 255 {
      ThreeParts(ts[..i], Lit(b), ts[i + 1..]);
    } else if OpenRunBefore(ts, i) {
      ThreeParts(ts[..i - 1], Run(255, ts[i - 1].count + 1), ts[i + 1..]);
    } else {
      ThreeParts(ts[..i], Run(255, 1), ts[i + 1..]);
    }
  }

  lemma ThreeParts(a: seq<Token>, t: Token, c: seq<Token>)
    ensures Stored(a + [t] + c) == Stored(a) + TokenBytes(t) + Stored(c)
  {
    Append(a + [t], c);
    Append(a, [t]);
    Single(t);
  }

  ghost function RunsLeft(n: int): nat {
    if n > 0 then |ZeroRuns(n)| else 0
  }

  ghost function RunBytesLeft(n: int): seq<byte> {
    if n > 0 then Stored(ZeroRuns(n)) else []
  }

  lemma AllRunsLeft(n: nat)
    ensures RunsLeft(n) == |ZeroRuns(n)| && RunBytesLeft(n) == Stored(ZeroRuns(n))
  {
  }

  lemma NoRunsLeft(n: int)
    requires RunsLeft(n) == 0
    ensures RunBytesLeft(n) == []
  {
  }

  lemma OneZero()
    ensures Zeros(1) == [0]
  {
  }

  function StoredSize(t: Token): nat {
    if t.Lit? then 1 else 3
  }

  function DataSize(t: Token): nat {
    if t.Lit? then 1 else t.count
  }

  /** The token at `i` can be read off the stored bytes at its place. */
  lemma ReadToken(ts: seq<Token>, i: nat)
    requires AllWellFormed(ts) && i <= |ts| && |Stored(ts[..i])| < |Stored(ts)|
    ensures i < |ts| && WellFormed(ts[i])
    ensures var s, p := Stored(ts), |Stored(ts[..i])|;
            && p + StoredSize(ts[i]) <= |s|
            && |Stored(ts[..i + 1])| == p + StoredSize(ts[i])
            && |Data(ts[..i + 1])| == |Data(ts[..i])| + DataSize(ts[i])
            && (ts[i].Lit? ==> s[p] == ts[i].value)
            && (ts[i].Run? ==> s[p] == ts[i].fill && Word(s[p + 1], s[p + 2]) == ts[i].count)
  {
    hide *;
    assert ts[..|ts|] == ts;
    var t := ts[i];
    OneWellFormed(ts, i);
    SplitAt(ts, i);
    assert ts[..i + 1] == ts[..i] + [t];
    Append(ts[..i], [t]);
    Single(t);
    TokenInside(Stored(ts[..i]), t, Stored(ts[i + 1..]));
  }

  lemma OneWellFormed(ts: seq<Token>, i: nat)
    requires AllWellFormed(ts) && i < |ts|
    ensures WellFormed(ts[i])
  {
  }

  lemma TokenSize(t: Token)
    ensures |TokenBytes(t)| == StoredSize(t)
  {
  }

  lemma TokenInside(p: seq<byte>, t: Token, q: seq<byte>)
    requires WellFormed(t)
    ensures var s := p + TokenBytes(t) + q;
            && |TokenBytes(t)| == StoredSize(t) && |TokenData(t)| == DataSize(t)
            && (t.Lit? ==> s[|p|] == t.value)
            && (t.Run? ==> s[|p|] == t.fill && Word(s[|p| + 1], s[|p| + 2]) == t.count)
  {
    hide Word, LowByte, HighByte;
    if t.Run? {
      CountOfBytes(t.count);
    }
  }

  /** The token at `i` holds byte `n / 8` of the data. */
  lemma FoundAt(ts: seq<Token>, i: nat, n: nat)
    requires AllWellFormed(ts) && i < |ts|
    requires |Data(ts[..i])| <= n / 8 < |Data(ts[..i])| + DataSize(ts[i])
    ensures Locate(ts, n / 8) == i && n / 8 < |Data(ts)|
    ensures Data(ts)[n / 8] == if ts[i].Run? then ts[i].fill else ts[i].value
  {
    hide Data, Locate;
    LocateAt(ts, n / 8, i);
    ByteAt(ts, n / 8);
  }

  lemma ReadAll(ts: seq<Token>, i: nat)
    requires i <= |ts| && |Stored(ts[..i])| == |Stored(ts)|
    ensures i == |ts| && ts[..i] == ts
  {
    if i < |ts| {
      SplitAt(ts, i);
    }
  }

  lemma FirstZeroRun(n: int)
    requires RunsLeft(n) > 0
    ensures n > 0
    ensures var c := if n >= MAX_RUN then MAX_RUN else n;
            && RunBytesLeft(n) == TokenBytes(Run(0, c)) + RunBytesLeft(n - MAX_RUN)
            && RunsLeft(n) == 1 + RunsLeft(n - MAX_RUN)
  {
    if n >= MAX_RUN {
      assert ZeroRuns(n) == [Run(0, MAX_RUN)] + ZeroRuns(n - MAX_RUN);
      assert ZeroRuns(n)[1..] == ZeroRuns(n - MAX_RUN);
    } else {
      Single(Run(0, n));
    }
  }

  /** Storing a count into zeroed bytes makes a zero run of them. */
  lemma WriteRun(p: seq<byte>, c: nat, n: nat)
    requires n > 0
    ensures Put(p + Zeros(3 * n + 1), |p| + 1, c) == p + TokenBytes(Run(0, c)) + Zeros(3 * (n - 1) + 1)
  {
    hide LowByte, HighByte, WithBit;
  }

  /** Adding one to a word of the block, of which the second byte may lie past the bytes in use. */
  lemma BumpInBlock(m: seq<byte>, len: nat, at: nat, w: nat)
    requires 1 <= at < len <= |m| && at + 1 < |m| && w == (Word(m[at], m[at + 1]) + 1) % 0x10000
    ensures Put(m, at, w)[1..len] == BumpWord(m[1..len], at - 1)
  {
    BumpedBytes(m[at], m[at + 1], w);
    hide LowByte, HighByte, Word, Succ;
    var s := m[1..len];
    var p := Put(m, at, w)[1..len];
    var q := BumpWord(s, at - 1);
    forall j | 0 <= j < len - 1
      ensures p[j] == q[j]
    {
      assert j != at - 1 && j != at ==> p[j] == s[j] == q[j];
      assert s[at - 1] == m[at];
    }
  }

  lemma BumpedBytes(lo: byte, hi: byte, w: nat)
    requires w == (Word(lo, hi) + 1) % 0x10000
    ensures LowByte(w) == if lo < 255 then lo + 1 else 0
    ensures HighByte(w) == if lo < 255 then hi else Succ(hi)
  {
  }

  lemma BumpTail(pre: seq<byte>, t: seq<byte>)
    requires |t| > 2
    ensures BumpWord(pre + t, |pre| + 2) == pre + BumpWord(t, 2)
  {
    assert (pre + t)[|pre| + 3..] == t[3..];
    assert (pre + t)[..|pre| + 2] == pre + t[..2];
  }

  // ---------- The four ways the code splits a zero run, as edits of the stored bytes ----------

  lemma SetMiddle(p: seq<byte>, x: byte, q: seq<byte>, b: byte)
    ensures (p + [x] + q)[|p|] == x && (p + [x] + q)[|p| := b] == p + [b] + q
  {
  }

  lemma PutMiddle(p: seq<byte>, f: byte, x: byte, y: byte, q: seq<byte>, w: nat)
    ensures Put(p + [f, x, y] + q, |p| + 1, w) == p + [f, LowByte(w), HighByte(w)] + q
  {
    hide LowByte, HighByte;
  }

  lemma PutRun(p: seq<byte>, c: nat, q: seq<byte>, w: nat)
    ensures Put(p + TokenBytes(Run(0, c)) + q, |p| + 1, w) == p + TokenBytes(Run(0, w)) + q
  {
    PutMiddle(p, 0, LowByte(c), HighByte(c), q, w);
  }

  lemma GapMiddle(p: seq<byte>, q: seq<byte>, n: nat)
    ensures Gap(p + q, |p|, n) == p + Zeros(n) + q
  {
  }

  ghost predicate ClearThenSet(t: seq<byte>, at: nat, k: nat, new': seq<byte>)
    requires k < 8
  {
    at < |t| && t[at] == 0 && t[at := WithBit(0, k)] == new'
  }

  lemma SplitSingle(pre: seq<byte>, k: nat, post: seq<byte>)
    requires k < 8
    ensures var s := pre + TokenBytes(Run(0, 1)) + post;
            ClearThenSet(Cut(s, |pre| + 1, 2), |pre|, k, pre + Stored(SplitRun(1, 0, k)) + post)
  {
    Single(Lit(WithBit(0, k)));
    hide Stored, WithBit, LowByte, HighByte;
    assert Cut(pre + TokenBytes(Run(0, 1)) + post, |pre| + 1, 2) == pre + [0] + post;
  }

  lemma SplitAtEnd(pre: seq<byte>, c: nat, k: nat, post: seq<byte>)
    requires 1 < c <= MAX_RUN && k < 8
    ensures var s, p := pre + TokenBytes(Run(0, c)) + post, |pre|;
            ClearThenSet(Gap(Put(s, p + 1, c - 1), p + 3, 1), p + 3, k, pre + Stored(SplitRun(c, c - 1, k)) + post)
  {
    var b, r := WithBit(0, k), TokenBytes(Run(0, c - 1));
    Single(Lit(b));
    Single(Run(0, c - 1));
    Append([Run(0, c - 1)], [Lit(b)]);
    PutRun(pre, c, post, c - 1);
    hide Stored, WithBit, LowByte, HighByte, Put, Gap, TokenBytes;
    GapMiddle(pre + r, post, 1);
    OneZero();
    SetMiddle(pre + r, 0, post, b);
    Assoc(pre, r, [b]);
  }

  lemma SplitInside(pre: seq<byte>, c: nat, off: nat, k: nat, post: seq<byte>)
    requires 0 < off < c - 1 < MAX_RUN && k < 8
    ensures var s, p := pre + TokenBytes(Run(0, c)) + post, |pre|;
            ClearThenSet(Put(Gap(Put(s, p + 1, off), p + 3, 4), p + 5, c - 1 - off), p + 3, k,
                         pre + Stored(SplitRun(c, off, k)) + post)
  {
    var b, r, r' := WithBit(0, k), TokenBytes(Run(0, off)), TokenBytes(Run(0, c - 1 - off));
    SplitStored(c, off, k);
    PutRun(pre, c, post, off);
    ZerosFour();
    LaidOut(Run(0, c - 1 - off));
    hide Stored, SplitRun, WithBit, LowByte, HighByte, Put, Gap, TokenBytes, Zeros;
    GapMiddle(pre + r, post, 4);
    var head := pre + r + [0];
    Assoc(pre + r, [0], [0, 0, 0]);
    PutMiddle(head, 0, 0, 0, post, c - 1 - off);
    Assoc(head, r', post);
    SetMiddle(pre + r, 0, r' + post, b);
    Assoc(pre, r, [b]);
    Assoc(pre, r + [b], r');
    Assoc(pre + r + [b], r', post);
  }

  lemma SplitStored(c: nat, off: nat, k: nat)
    requires 0 < off < c - 1 < MAX_RUN && k < 8
    ensures Stored(SplitRun(c, off, k)) == TokenBytes(Run(0, off)) + [WithBit(0, k)] + TokenBytes(Run(0, c - 1 - off))
  {
    var b, t, t' := WithBit(0, k), Run(0, off), Run(0, c - 1 - off);
    Single(Lit(b));
    Single(t);
    Single(t');
    Append([t], [Lit(b)]);
    Append([t] + [Lit(b)], [t']);
    hide Stored, WithBit;
  }

  lemma ZerosFour()
    ensures Zeros(4) == [0] + [0, 0, 0]
  {
  }

  lemma LaidOut(t: Token)
    ensures t.Run? ==> TokenBytes(t) == [t.fill, LowByte(t.count), HighByte(t.count)]
  {
  }

  lemma SplitAtStart(pre: seq<byte>, c: nat, k: nat, post: seq<byte>)
    requires 1 < c <= MAX_RUN && k < 8
    ensures var s, p := pre + TokenBytes(Run(0, c)) + post, |pre|;
            ClearThenSet(Gap(Put(s, p + 1, c - 1), p, 1), p, k, pre + Stored(SplitRun(c, 0, k)) + post)
  {
    var b, r := WithBit(0, k), TokenBytes(Run(0, c - 1));
    Single(Lit(b));
    Single(Run(0, c - 1));
    Append([Lit(b)], [Run(0, c - 1)]);
    PutRun(pre, c, post, c - 1);
    hide Stored, WithBit, LowByte, HighByte, Put, Gap, TokenBytes;
    Assoc(pre, r, post);
    GapMiddle(pre, r + post, 1);
    OneZero();
    SetMiddle(pre, 0, r + post, b);
    assert pre + [b] + (r + post) == pre + ([b] + r) + post;
  }

  // ---------- Filling up a literal, as edits of the stored bytes ----------

  lemma JoinBefore(pre: seq<byte>, c: nat, b: byte, post: seq<byte>)
    requires c < MAX_RUN
    ensures var s, p := pre + TokenBytes(Run(255, c)) + [b] + post, |pre|;
            Put(Cut(s, p + 3, 1), p + 1, c + 1) == pre + TokenBytes(Run(255, c + 1)) + post
  {
    hide LowByte, HighByte, WithBit;
    var s := pre + TokenBytes(Run(255, c)) + [b] + post;
    assert Cut(s, |pre| + 3, 1) == pre + TokenBytes(Run(255, c)) + post;
  }

  lemma NewRun(pre: seq<byte>, post: seq<byte>)
    ensures var s, p := pre + [255] + post, |pre|;
            Put(Gap(s, p + 1, 2), p + 1, 1) == pre + TokenBytes(Run(255, 1)) + post
  {
    hide LowByte, HighByte, WithBit;
    assert Gap(pre + [255] + post, |pre| + 1, 2) == pre + [255, 0, 0] + post;
  }
}
