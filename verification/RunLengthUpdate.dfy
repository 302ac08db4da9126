/** What `SFBitArray::SetAt` on the run-length form does to the token list, and what it should do. */
module RunLengthUpdate {
  import opened Bytes
  import opened RunLengthCode

  /** The token that holds byte `d` of the data, or `|ts|` if the data is shorter. */
  function Locate(ts: seq<Token>, d: nat): (i: nat)
    ensures i <= |ts|
  {
    if ts == [] then 0
    else if d < |TokenData(ts[0])| then 0
    else 1 + Locate(ts[1..], d - |TokenData(ts[0])|)
  }

  lemma {:induction false} LocateAt(ts: seq<Token>, d: nat, i: nat)
    requires i <= |ts| && |Data(ts[..i])| <= d
    requires i < |ts| ==> d < |Data(ts[..i])| + |TokenData(ts[i])|
    ensures Locate(ts, d) == i
  {
    if i > 0 {
      assert ts[..i][1..] == ts[1..][..i - 1];
      LocateAt(ts[1..], d - |TokenData(ts[0])|, i - 1);
    }
  }

  /** The run that the code finds just before token `i` and can lengthen by one. */
  predicate OpenRunBefore(ts: seq<Token>, i: nat)
    requires i <= |ts|
  {
    i > 0 && ts[i - 1].Run? && ts[i - 1].fill == 255 && ts[i - 1].count != MAX_RUN
  }

  predicate OpenRunAfter(ts: seq<Token>, i: nat)
    requires i < |ts|
  {
    i + 1 < |ts| && ts[i + 1].Run? && ts[i + 1].fill == 255 && ts[i + 1].count != MAX_RUN
  }

  /** Setting bit `n` fills up a literal byte. */
  predicate Fills(ts: seq<Token>, n: nat) {
    var i := Locate(ts, n / 8);
    i < |ts| && ts[i].Lit? && !HasBit(ts[i].value, n % 8) && WithBit(ts[i].value, n % 8) == 255
  }

  /** The guard of the branch that adds the filled byte to the run after it. */
  predicate MergesForward(ts: seq<Token>, n: nat) {
    var i := Locate(ts, n / 8);
    Fills(ts, n) && !OpenRunBefore(ts, i) && OpenRunAfter(ts, i)
  }

  /** Zero runs that skip `n` bytes, the full ones first. */
  function ZeroRuns(n: nat): (ts: seq<Token>)
    ensures AllWellFormed(ts) && Data(ts) == Zeros(n)
    ensures |ts| == n / MAX_RUN + (if n % MAX_RUN == 0 then 0 else 1) && |Stored(ts)| == 3 * |ts|
  {
    if n == 0 then []
    else if n < MAX_RUN then
      Single(Run(0, n));
      [Run(0, n)]
    else
      [Run(0, MAX_RUN)] + ZeroRuns(n - MAX_RUN)
  }

  /** The tokens that replace a run of `c` zeros when bit `k` of its byte `off` is set. */
  function SplitRun(c: nat, off: nat, k: nat): (ts: seq<Token>)
    requires off < c <= MAX_RUN && k < 8
  {
    var lit := [Lit(WithBit(0, k))];
    if c == 1 then lit
    else if off == c - 1 then [Run(0, off)] + lit
    else if off > 0 then [Run(0, off)] + lit + [Run(0, c - 1 - off)]
    else lit + [Run(0, c - 1)]
  }

  function SetInRun(ts: seq<Token>, i: nat, off: nat, k: nat): seq<Token>
    requires i < |ts| && ts[i].Run? && off < ts[i].count <= MAX_RUN && k < 8
  {
    ts[..i] + SplitRun(ts[i].count, off, k) + ts[i + 1..]
  }

  function SetInLiteral(ts: seq<Token>, i: nat, k: nat): seq<Token>
    requires i < |ts| && ts[i].Lit? && k < 8
  {
    var b := WithBit(ts[i].value, k);
    if b != 255 then ts[..i] + [Lit(b)] + ts[i + 1..]
    else if OpenRunBefore(ts, i) then ts[..i - 1] + [Run(255, ts[i - 1].count + 1)] + ts[i + 1..]
    else ts[..i] + [Run(255, 1)] + ts[i + 1..]
  }

  function SetPastEnd(ts: seq<Token>, gap: nat, k: nat): seq<Token>
    requires k < 8
  {
    ts + ZeroRuns(gap) + [Lit(WithBit(0, k))]
  }

  /** The token list with bit `n` set, when it is clear. */
  function SetTokens(ts: seq<Token>, n: nat): seq<Token>
    requires AllWellFormed(ts) && !BitAt(Data(ts), n)
  {
    var i, k := Locate(ts, n / 8), n % 8;
    LocateBounds(ts, n / 8);
    if i == |ts| then SetPastEnd(ts, n / 8 - |Data(ts)|, k)
    else if ts[i].Run? then SetInRun(ts, i, n / 8 - |Data(ts[..i])|, k)
    else SetInLiteral(ts, i, k)
  }

  lemma {:induction false} LocateBounds(ts: seq<Token>, d: nat)
    ensures var i := Locate(ts, d);
            && |Data(ts[..i])| <= d
            && (i < |ts| ==> d < |Data(ts[..i])| + |TokenData(ts[i])|)
            && (i == |ts| ==> |Data(ts)| <= d)
  {
    if ts != [] && d >= |TokenData(ts[0])| {
      var i := Locate(ts[1..], d - |TokenData(ts[0])|);
      LocateBounds(ts[1..], d - |TokenData(ts[0])|);
      assert ts[..i + 1][1..] == ts[1..][..i];
    } else {
      assert ts[..0] == [];
    }
    assert ts[..|ts|] == ts;
  }

  /** The byte of the data that a token at `i` accounts for. */
  lemma ByteAt(ts: seq<Token>, d: nat)
    requires var i := Locate(ts, d); i < |ts|
    ensures var i := Locate(ts, d);
            && d < |Data(ts)| && 0 <= d - |Data(ts[..i])| < |TokenData(ts[i])|
            && Data(ts)[d] == TokenData(ts[i])[d - |Data(ts[..i])|]
  {
    LocateBounds(ts, d);
    SplitAt(ts, Locate(ts, d));
  }

  lemma SplitRunData(c: nat, off: nat, k: nat)
    requires off < c <= MAX_RUN && k < 8
    ensures AllWellFormed(SplitRun(c, off, k))
    ensures Data(SplitRun(c, off, k)) == Fill(0, c)[off := WithBit(0, k)]
  {
    SetZeroIsLiteral(k);
    var l := Lit(WithBit(0, k));
    Single(l);
    if c == 1 {
    } else if off == c - 1 {
      Append([Run(0, off)], [l]);
      Single(Run(0, off));
    } else if off > 0 {
      Append([Run(0, off)], [l]);
      Append([Run(0, off)] + [l], [Run(0, c - 1 - off)]);
      Single(Run(0, off));
      Single(Run(0, c - 1 - off));
    } else {
      Append([l], [Run(0, c - 1)]);
      Single(Run(0, c - 1));
    }
  }

  /** A zero byte with one bit set is neither 0x00 nor 0xFF. */
  lemma SetZeroIsLiteral(k: nat)
    requires k < 8
    ensures WellFormed(Lit(WithBit(0, k)))
  {
    var j := if k == 0 then 1 else 0;
    OtherBits(0, k, j);
    ZeroHasNoBit(j);
    FullHasBit(j);
    ZeroHasNoBit(k);
  }

  lemma ReplaceInMiddle(p: seq<byte>, m: seq<byte>, q: seq<byte>, off: nat, v: byte)
    requires off < |m|
    ensures (p + m + q)[|p| + off := v] == p + m[off := v] + q
  {
  }

  lemma ReplaceData(pre: seq<Token>, mid: seq<Token>, mid': seq<Token>, post: seq<Token>, off: nat, v: byte)
    requires off < |Data(mid)| && Data(mid') == Data(mid)[off := v]
    ensures |Data(pre)| + off < |Data(pre + mid + post)|
    ensures Data(pre + mid' + post) == Data(pre + mid + post)[|Data(pre)| + off := v]
  {
    hide Data, Stored;
    Append(pre + mid, post);
    Append(pre, mid);
    Append(pre + mid', post);
    Append(pre, mid');
    ReplaceInMiddle(Data(pre), Data(mid), Data(post), off, v);
  }

  lemma SetInRunData(ts: seq<Token>, i: nat, off: nat, k: nat)
    requires AllWellFormed(ts) && i < |ts| && ts[i].Run? && ts[i].fill == 0 && off < ts[i].count && k < 8
    ensures AllWellFormed(SetInRun(ts, i, off, k)) && |Data(ts[..i])| + off < |Data(ts)|
    ensures Data(SetInRun(ts, i, off, k)) == Data(ts)[|Data(ts[..i])| + off := WithBit(0, k)]
  {
    var c := ts[i].count;
    SplitRunData(c, off, k);
    Single(ts[i]);
    hide Data, Stored, SplitRun;
    assert ts == ts[..i] + [ts[i]] + ts[i + 1..];
    ReplaceData(ts[..i], [ts[i]], SplitRun(c, off, k), ts[i + 1..], off, WithBit(0, k));
  }

  lemma ExtendRunBefore(pre: seq<Token>, c: nat, b: byte, post: seq<Token>)
    ensures var ts := pre + [Run(255, c), Lit(b)] + post;
            && |Data(pre)| + c < |Data(ts)|
            && Data(pre + [Run(255, c + 1)] + post) == Data(ts)[|Data(pre)| + c := 255]
  {
    var mid := [Run(255, c), Lit(b)];
    assert mid == [Run(255, c)] + [Lit(b)];
    Append([Run(255, c)], [Lit(b)]);
    Single(Run(255, c));
    Single(Lit(b));
    Single(Run(255, c + 1));
    assert Data([Run(255, c + 1)]) == Data(mid)[c := 255];
    ReplaceData(pre, mid, [Run(255, c + 1)], post, c, 255);
  }

  lemma MergeBackwardData(ts: seq<Token>, i: nat)
    requires AllWellFormed(ts) && 0 < i < |ts| && ts[i].Lit? && OpenRunBefore(ts, i)
    ensures var new' := ts[..i - 1] + [Run(255, ts[i - 1].count + 1)] + ts[i + 1..];
            AllWellFormed(new') && |Data(ts[..i])| < |Data(ts)| && Data(new') == Data(ts)[|Data(ts[..i])| := 255]
  {
    var r, post := ts[i - 1], ts[i + 1..];
    assert ts[..i] == ts[..i - 1] + [r];
    Append(ts[..i - 1], [r]);
    Single(r);
    hide Data, Stored, TokenBytes, TokenData;
    ExtendRunBefore(ts[..i - 1], r.count, ts[i].value, post);
    assert ts == ts[..i - 1] + [Run(255, r.count), Lit(ts[i].value)] + post;
  }

  lemma OneByteToken(t: Token, b: byte)
    requires t == Lit(b) || t == Run(b, 1)
    ensures TokenData(t) == [b]
  {
  }

  lemma SetInLiteralData(ts: seq<Token>, i: nat, k: nat)
    requires AllWellFormed(ts) && i < |ts| && ts[i].Lit? && k < 8
    ensures AllWellFormed(SetInLiteral(ts, i, k)) && |Data(ts[..i])| < |Data(ts)|
    ensures Data(SetInLiteral(ts, i, k)) == Data(ts)[|Data(ts[..i])| := WithBit(ts[i].value, k)]
  {
    var b := WithBit(ts[i].value, k);
    if b == 255 && OpenRunBefore(ts, i) {
      hide Data, Stored;
      MergeBackwardData(ts, i);
    } else {
      var new' := if b != 255 then Lit(b) else Run(255, 1);
      Single(ts[i]);
      Single(new');
      assert TokenData(ts[i]) == [ts[i].value] && TokenData(new') == [b] by { OneByteToken(new', b); }
      hide Data, Stored, TokenData, TokenBytes;
      assert ts == ts[..i] + [ts[i]] + ts[i + 1..];
      ReplaceData(ts[..i], [ts[i]], [new'], ts[i + 1..], 0, b);
    }
  }

  lemma SetPastEndData(ts: seq<Token>, gap: nat, k: nat)
    requires AllWellFormed(ts) && k < 8
    ensures AllWellFormed(SetPastEnd(ts, gap, k))
    ensures Data(SetPastEnd(ts, gap, k)) == Data(ts) + Zeros(gap) + [WithBit(0, k)]
  {
    var z, l := ZeroRuns(gap), Lit(WithBit(0, k));
    SetZeroIsLiteral(k);
    Append(ts, z);
    Append(ts + z, [l]);
    Single(l);
  }

  lemma SetPastEndSetsBit(ts: seq<Token>, n: nat)
    requires AllWellFormed(ts) && !BitAt(Data(ts), n) && Locate(ts, n / 8) == |ts|
    ensures AllWellFormed(SetTokens(ts, n)) && Data(SetTokens(ts, n)) == SetBitAt(Data(ts), n)
  {
    LocateBounds(ts, n / 8);
    var s, d, k := Data(ts), n / 8, n % 8;
    hide Data, Locate, AllWellFormed, HasBit;
    assert |s| <= d;
    SetPastEndData(ts, d - |s|, k);
    assert SetTokens(ts, n) == SetPastEnd(ts, d - |s|, k);
    hide SetPastEnd, SetTokens;
    assert (s + Zeros(d + 1 - |s|))[d := WithBit(0, k)] == s + Zeros(d - |s|) + [WithBit(0, k)];
  }

  lemma SetRunSetsBit(ts: seq<Token>, n: nat)
    requires AllWellFormed(ts) && !BitAt(Data(ts), n)
    requires var i := Locate(ts, n / 8); i < |ts| && ts[i].Run?
    ensures AllWellFormed(SetTokens(ts, n)) && Data(SetTokens(ts, n)) == SetBitAt(Data(ts), n)
  {
    var i, k := Locate(ts, n / 8), n % 8;
    ByteAt(ts, n / 8);
    FullHasBit(k);
    assert ts[i].fill == 0;
    hide Data, Locate, SetInRun, HasBit, WithBit, AllWellFormed;
    var off := n / 8 - |Data(ts[..i])|;
    SetInRunData(ts, i, off, k);
    assert SetTokens(ts, n) == SetInRun(ts, i, off, k);
  }

  lemma SetLiteralSetsBit(ts: seq<Token>, n: nat)
    requires AllWellFormed(ts) && !BitAt(Data(ts), n)
    requires var i := Locate(ts, n / 8); i < |ts| && ts[i].Lit?
    ensures AllWellFormed(SetTokens(ts, n)) && Data(SetTokens(ts, n)) == SetBitAt(Data(ts), n)
  {
    var i, k := Locate(ts, n / 8), n % 8;
    ByteAt(ts, n / 8);
    hide Data, Locate, SetInLiteral, HasBit, WithBit, AllWellFormed;
    SetInLiteralData(ts, i, k);
    assert SetTokens(ts, n) == SetInLiteral(ts, i, k);
  }

  /** What the update is meant to do, it does: the token list stays well formed and only bit `n` changes. */
  lemma SetTokensSetsBit(ts: seq<Token>, n: nat)
    requires AllWellFormed(ts) && !BitAt(Data(ts), n)
    ensures AllWellFormed(SetTokens(ts, n)) && Data(SetTokens(ts, n)) == SetBitAt(Data(ts), n)
  {
    hide Data, SetTokens, SetBitAt, AllWellFormed, BitAt;
    var i := Locate(ts, n / 8);
    if i == |ts| {
      SetPastEndSetsBit(ts, n);
    } else if ts[i].Run? {
      SetRunSetsBit(ts, n);
    } else {
      SetLiteralSetsBit(ts, n);
    }
  }

  // ---------- What the update is, told without its branches ----------

  lemma {:induction false} ZeroRunsMaximal(n: nat, b: byte)
    ensures Maximal(ZeroRuns(n) + [Lit(b)])
  {
    if n < MAX_RUN {
      LastZeroRun(n, b);
    }
    hide ZeroRuns, Maximal;
    if n >= MAX_RUN {
      var rest := ZeroRuns(n - MAX_RUN) + [Lit(b)];
      ZeroRunsMaximal(n - MAX_RUN, b);
      FullRunFirst(n);
      assert ZeroRuns(n) + [Lit(b)] == [Run(0, MAX_RUN)] + rest;
      FullRunBefore(0, rest);
    }
  }

  lemma LastZeroRun(n: nat, b: byte)
    requires n < MAX_RUN
    ensures Maximal(ZeroRuns(n) + [Lit(b)])
  {
  }

  lemma FullRunBefore(b: byte, ts: seq<Token>)
    requires Maximal(ts)
    ensures Maximal([Run(b, MAX_RUN)] + ts)
  {
    var us := [Run(b, MAX_RUN)] + ts;
    assert forall i :: 0 < i < |us| ==> us[i] == ts[i - 1];
  }

  lemma FullRunFirst(n: nat)
    requires n >= MAX_RUN
    ensures ZeroRuns(n) == [Run(0, MAX_RUN)] + ZeroRuns(n - MAX_RUN)
  {
  }

  lemma SplitRunMaximal(c: nat, off: nat, k: nat)
    requires off < c <= MAX_RUN && k < 8
    ensures Maximal(SplitRun(c, off, k))
  {
  }

  /** Token `i` accounts for byte `d`, or the data ends before it. */
  predicate Holds(ts: seq<Token>, i: nat, d: nat) {
    && i <= |ts| && |Data(ts[..i])| <= d
    && (i < |ts| ==> d < |Data(ts[..i])| + |TokenData(ts[i])|)
  }

  /** Token `i` is a run of bytes 0xFF that can be longer. */
  predicate OpenRun(ts: seq<Token>, i: int) {
    0 <= i < |ts| && ts[i].Run? && ts[i].fill == 255 && ts[i].count < 65535
  }

  /**
   The update replaces the token of the byte, and the run before it if the byte is filled up and
   that run can be longer, by tokens of which no run could be longer. So it is determined by what
   it stands for.
  */
  lemma ChangedPart(ts: seq<Token>, n: nat, i: nat) returns (mid: seq<Token>)
    requires AllWellFormed(ts) && !BitAt(Data(ts), n) && Holds(ts, i, n / 8)
    ensures var filled := i < |ts| && ts[i].Lit? && WithBit(ts[i].value, n % 8) == 255;
            var a, b := if filled && OpenRun(ts, i - 1) then i - 1 else i, if i < |ts| then i + 1 else i;
            SetTokens(ts, n) == ts[..a] + mid + ts[b..]
    ensures Maximal(mid) && AllWellFormed(mid)
  {
    hide Data, BitAt, SetTokens, TokenData;
    LocateAt(ts, n / 8, i);
    if i == |ts| {
      mid := ChangedAtEnd(ts, n);
      assert ts[..i] == ts && ts[i..] == [];
    } else if ts[i].Run? {
      mid := ChangedInRun(ts, n, i);
    } else {
      mid := ChangedInLiteral(ts, n, i);
    }
  }

  lemma ChangedAtEnd(ts: seq<Token>, n: nat) returns (mid: seq<Token>)
    requires AllWellFormed(ts) && !BitAt(Data(ts), n) && Locate(ts, n / 8) == |ts|
    ensures SetTokens(ts, n) == ts + mid + [] && Maximal(mid) && AllWellFormed(mid)
  {
    hide Data, BitAt, Locate, Maximal, HasBit;
    LocateBounds(ts, n / 8);
    var gap, b := n / 8 - |Data(ts)|, WithBit(0, n % 8);
    SetZeroIsLiteral(n % 8);
    ZeroRunsMaximal(gap, b);
    mid := ZeroRuns(gap) + [Lit(b)];
    assert ts + ZeroRuns(gap) + [Lit(b)] == ts + mid + [];
  }

  lemma ChangedInRun(ts: seq<Token>, n: nat, i: nat) returns (mid: seq<Token>)
    requires AllWellFormed(ts) && !BitAt(Data(ts), n) && Locate(ts, n / 8) == i < |ts| && ts[i].Run?
    ensures SetTokens(ts, n) == ts[..i] + mid + ts[i + 1..] && Maximal(mid) && AllWellFormed(mid)
  {
    LocateBounds(ts, n / 8);
    hide Data, BitAt, Locate;
    assert WellFormed(ts[i]);
    var off := n / 8 - |Data(ts[..i])|;
    SplitRunMaximal(ts[i].count, off, n % 8);
    SplitRunData(ts[i].count, off, n % 8);
    mid := SplitRun(ts[i].count, off, n % 8);
    hide Maximal, SplitRun;
  }

  lemma ChangedInLiteral(ts: seq<Token>, n: nat, i: nat) returns (mid: seq<Token>)
    requires AllWellFormed(ts) && !BitAt(Data(ts), n) && Locate(ts, n / 8) == i < |ts| && ts[i].Lit?
    ensures var a := if WithBit(ts[i].value, n % 8) == 255 && OpenRun(ts, i - 1) then i - 1 else i;
            SetTokens(ts, n) == ts[..a] + mid + ts[i + 1..]
    ensures Maximal(mid) && AllWellFormed(mid)
  {
    hide Data, BitAt, Locate;
    assert WellFormed(ts[i]);
    assert i > 0 ==> WellFormed(ts[i - 1]);
    var b := WithBit(ts[i].value, n % 8);
    mid := if b != 255 then [Lit(b)]
           else if OpenRun(ts, i - 1) then [Run(255, ts[i - 1].count + 1)] else [Run(255, 1)];
  }

  /**
   The forward merge is taken exactly if a literal is filled up, no run of 0xFF that can be longer
   is before it, and one is after it.
  */
  lemma MergesForwardIff(ts: seq<Token>, n: nat, i: nat)
    requires AllWellFormed(ts) && !BitAt(Data(ts), n) && Holds(ts, i, n / 8)
    ensures MergesForward(ts, n) <==>
            && i < |ts| && ts[i].Lit? && WithBit(ts[i].value, n % 8) == 255
            && !OpenRun(ts, i - 1) && OpenRun(ts, i + 1)
  {
    LocateAt(ts, n / 8, i);
    if i < |ts| && ts[i].Lit? {
      LiteralBit(ts, n, i);
    }
    hide Data, BitAt;
    assert forall j :: 0 <= j < |ts| ==> WellFormed(ts[j]);
  }

  lemma LiteralBit(ts: seq<Token>, n: nat, i: nat)
    requires AllWellFormed(ts) && Holds(ts, i, n / 8) && i < |ts| && ts[i].Lit?
    ensures BitAt(Data(ts), n) == HasBit(ts[i].value, n % 8)
  {
    LocateAt(ts, n / 8, i);
    ByteAt(ts, n / 8);
  }

  /** A literal that is filled up behind a run of 0xFF with any count below 65535 is set right: the run gets longer. */
  lemma FilledBehindRun(ts: seq<Token>, n: nat, i: nat)
    requires AllWellFormed(ts) && !BitAt(Data(ts), n) && Holds(ts, i, n / 8)
    requires 0 < i < |ts| && ts[i].Lit? && WithBit(ts[i].value, n % 8) == 255
    requires ts[i - 1].Run? && ts[i - 1].fill == 255 && ts[i - 1].count < 65535
    ensures StoredAfterSet(ts, n) == Stored(ts[..i - 1] + [Run(255, ts[i - 1].count + 1)] + ts[i + 1..])
    ensures Reads(StoredAfterSet(ts, n), SetBitAt(Data(ts), n))
  {
    hide Data, Stored, BitAt, Reads, SetTokens, MergesForward;
    LocateAt(ts, n / 8, i);
    SetRightIffNoForwardMerge(ts, n);
    MergesForwardIff(ts, n, i);
    LengthenedRun(ts, n, i);
  }

  lemma LengthenedRun(ts: seq<Token>, n: nat, i: nat)
    requires AllWellFormed(ts) && !BitAt(Data(ts), n) && Locate(ts, n / 8) == i
    requires 0 < i < |ts| && ts[i].Lit? && WithBit(ts[i].value, n % 8) == 255 && OpenRun(ts, i - 1)
    ensures SetTokens(ts, n) == ts[..i - 1] + [Run(255, ts[i - 1].count + 1)] + ts[i + 1..]
  {
    hide Data, BitAt, Locate;
  }

  // ---------- What the code leaves behind ----------

  /** The stored bytes after `SetAt(n)`, in all branches. */
  function StoredAfterSet(ts: seq<Token>, n: nat): seq<byte>
    requires AllWellFormed(ts) && !BitAt(Data(ts), n)
  {
    if MergesForward(ts, n) then
      var i := Locate(ts, n / 8);
      Stored(ts[..i]) + BumpWord(TokenBytes(ts[i + 1]) + Stored(ts[i + 2..]), 2)
    else
      Stored(SetTokens(ts, n))
  }

  /** Some reading of `stored` yields `data`; by `ReadsOneWay` there is at most one. */
  ghost predicate Reads(stored: seq<byte>, data: seq<byte>) {
    exists ts: seq<Token> :: AllReadable(ts) && Stored(ts) == stored && Data(ts) == data
  }

  lemma ReadsOneWay(stored: seq<byte>, a: seq<byte>, b: seq<byte>)
    requires Reads(stored, a) && Reads(stored, b)
    ensures a == b
  {
    var s: seq<Token> :| AllReadable(s) && Stored(s) == stored && Data(s) == a;
    var t: seq<Token> :| AllReadable(t) && Stored(t) == stored && Data(t) == b;
    StoredInjective(s, t);
  }

  /** What the forward merge is meant to leave: a run longer by one. */
  lemma MergeForwardGoal(pre: seq<Token>, c: nat, post: seq<Token>)
    ensures Data(pre + [Run(255, 1)] + ([Run(255, c)] + post)) == Data(pre) + (Fill(255, c + 1) + Data(post))
  {
    Single(Run(255, 1));
    Single(Run(255, c));
    hide Data, Stored;
    Append(pre + [Run(255, 1)], [Run(255, c)] + post);
    Append(pre, [Run(255, 1)]);
    Append([Run(255, c)], post);
    Assoc(Data(pre), Fill(255, 1), Fill(255, c) + Data(post));
    Assoc(Fill(255, 1), Fill(255, c), Data(post));
    assert Fill(255, 1) + Fill(255, c) == Fill(255, c + 1);
  }

  lemma MergeForwardReadsWrong(pre: seq<Token>, c: nat, post: seq<Token>, bad: seq<Token>)
    requires AllWellFormed(pre) && 0 < c < MAX_RUN && AllWellFormed(post) && AllReadable(bad)
    requires Stored(bad) == Stored(pre) + BumpWord(TokenBytes(Run(255, c)) + Stored(post), 2)
    ensures Data(bad) != Data(pre) + (Fill(255, c + 1) + Data(post))
  {
    hide Data, Stored, BumpWord;
    ReadsPrefix(pre, bad, BumpWord(TokenBytes(Run(255, c)) + Stored(post), 2));
    var rest := bad[|pre|..];
    BumpNeverRight(c, post, rest);
    assert bad == pre + rest;
    Append(pre, rest);
    if Data(bad) == Data(pre) + (Fill(255, c + 1) + Data(post)) {
      SameHead(Data(pre), Data(rest), Fill(255, c + 1) + Data(post));
    }
  }

  lemma MergeForwardTokens(ts: seq<Token>, n: nat)
    requires AllWellFormed(ts) && !BitAt(Data(ts), n) && MergesForward(ts, n)
    ensures var i := Locate(ts, n / 8);
            SetTokens(ts, n) == ts[..i] + [Run(255, 1)] + ([Run(255, ts[i + 1].count)] + ts[i + 2..])
  {
    hide Data, Locate;
    var i := Locate(ts, n / 8);
    assert ts[i + 1..] == [Run(255, ts[i + 1].count)] + ts[i + 2..];
  }

  /** After the forward merge the bytes do not read as the array with the bit set. */
  lemma NeverRightAfterMerge(ts: seq<Token>, n: nat, bad: seq<Token>)
    requires AllWellFormed(ts) && !BitAt(Data(ts), n) && MergesForward(ts, n)
    requires AllReadable(bad) && Stored(bad) == StoredAfterSet(ts, n)
    ensures Data(bad) != SetBitAt(Data(ts), n)
  {
    hide Data, Stored, Locate, SetTokens, SetBitAt, BumpWord;
    SetTokensSetsBit(ts, n);
    MergeForwardTokens(ts, n);
    var i := Locate(ts, n / 8);
    var pre, c, post := ts[..i], ts[i + 1].count, ts[i + 2..];
    MergeForwardGoal(pre, c, post);
    MergeForwardReadsWrong(pre, c, post, bad);
  }

  /**
   Setting a clear bit in the run-length form gives the form of the array with that bit set
   if and only if the code does not take its forward-merge branch.
  */
  lemma SetRightIffNoForwardMerge(ts: seq<Token>, n: nat)
    requires AllWellFormed(ts) && !BitAt(Data(ts), n)
    ensures Reads(StoredAfterSet(ts, n), SetBitAt(Data(ts), n)) <==> !MergesForward(ts, n)
  {
    if MergesForward(ts, n) {
      forall bad: seq<Token> | AllReadable(bad) && Stored(bad) == StoredAfterSet(ts, n)
        ensures Data(bad) != SetBitAt(Data(ts), n)
      {
        NeverRightAfterMerge(ts, n, bad);
      }
    } else {
      SetTokensSetsBit(ts, n);
    }
  }

  /** The two bytes 0xFE 0xFF with bit 0 set become 257 bytes 0xFF instead of two. */
  lemma ForwardMergeExample()
    ensures var ts := [Lit(254), Run(255, 1)];
            && AllWellFormed(ts) && !BitAt(Data(ts), 0) && MergesForward(ts, 0)
            && Reads(StoredAfterSet(ts, 0), Fill(255, 257)) && SetBitAt(Data(ts), 0) == Fill(255, 2)
  {
    var ts := [Lit(254), Run(255, 1)];
    assert ts == [Lit(254)] + [Run(255, 1)];
    Append([Lit(254)], [Run(255, 1)]);
    Single(Lit(254));
    Single(Run(255, 1));
    assert Data(ts) == [254, 255];
    assert ts[..0] == [] && ts[2..] == [];
    var r := Run(255, 257);
    Single(r);
    assert StoredAfterSet(ts, 0) == TokenBytes(r);
    assert Stored([r]) == StoredAfterSet(ts, 0) && Data([r]) == Fill(255, 257);
  }
}
