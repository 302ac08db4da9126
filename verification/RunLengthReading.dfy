/**
 Reading the run-length form as the decoder of `BaseLayer/SFBitArray.cpp` does, whatever the
 bytes are: a run that the array cuts off takes what is missing of its count from the zero
 bytes behind the array.
*/
module RunLengthReading {
  import opened Bytes
  import opened RunLengthCode
  import opened RunLengthUpdate

  function ByteAfter(s: seq<byte>, i: nat): byte {
    if i < |s| then s[i] else 0
  }

  function From(s: seq<byte>, i: nat): seq<byte> {
    if i <= |s| then s[i..] else []
  }

  function Decoded(s: seq<byte>): seq<byte>
    decreases |s|
  {
    if s == [] then []
    else if !IsFill(s[0]) then [s[0]] + Decoded(s[1..])
    else Fill(s[0], Word(ByteAfter(s, 1), ByteAfter(s, 2))) + Decoded(From(s, 3))
  }

  lemma DecodedLit(b: byte, s: seq<byte>)
    requires !IsFill(b)
    ensures Decoded([b] + s) == [b] + Decoded(s)
  {
    assert ([b] + s)[1..] == s;
  }

  lemma DecodedRun(b: byte, x: byte, y: byte, s: seq<byte>)
    requires IsFill(b)
    ensures Decoded([b, x, y] + s) == Fill(b, Word(x, y)) + Decoded(s)
  {
    assert ([b, x, y] + s)[3..] == s;
  }

  /** What stores a token list is read as that list, whatever follows it. */
  lemma {:induction false} DecodedStored(ts: seq<Token>, x: seq<byte>)
    requires AllReadable(ts)
    ensures Decoded(Stored(ts) + x) == Data(ts) + Decoded(x)
  {
    if ts == [] {
      assert Stored(ts) + x == x && Data(ts) + Decoded(x) == Decoded(x);
    } else {
      var t := ts[0];
      StoredCons(ts);
      DecodedStored(ts[1..], x);
      DecodedToken(t, Stored(ts[1..]) + x);
      hide Stored, Data, Decoded, TokenBytes, TokenData;
      Assoc(TokenBytes(t), Stored(ts[1..]), x);
      Assoc(TokenData(t), Data(ts[1..]), Decoded(x));
    }
  }

  lemma DecodedToken(t: Token, s: seq<byte>)
    requires Readable(t)
    ensures Decoded(TokenBytes(t) + s) == TokenData(t) + Decoded(s)
  {
    match t
    case Lit(b) => DecodedLit(b, s);
    case Run(f, c) =>
      CountOfBytes(c);
      DecodedRun(f, LowByte(c), HighByte(c), s);
  }

  /** A complete reading is what the decoder reads. */
  lemma DecodedIfReads(stored: seq<byte>, data: seq<byte>)
    requires Reads(stored, data)
    ensures Decoded(stored) == data
  {
    var ts: seq<Token> :| AllReadable(ts) && Stored(ts) == stored && Data(ts) == data;
    DecodedStored(ts, []);
    assert Stored(ts) + [] == Stored(ts) && Data(ts) + Decoded([]) == Data(ts);
  }

  // ---------- Bytes that are not a complete form ----------

  ghost predicate Complete(s: seq<byte>) {
    exists ts: seq<Token> :: AllReadable(ts) && Stored(ts) == s
  }

  lemma CompleteStored(ts: seq<Token>)
    requires AllReadable(ts)
    ensures Complete(Stored(ts))
  {
  }

  lemma CompleteCons(t: Token, s: seq<byte>)
    requires Readable(t) && Complete(s)
    ensures Complete(TokenBytes(t) + s)
  {
    var ts: seq<Token> :| AllReadable(ts) && Stored(ts) == s;
    var us := [t] + ts;
    StoredCons(us);
    assert us[1..] == ts;
    assert Stored(us) == TokenBytes(t) + s;
  }

  /** How many bytes are neither 0x00 nor 0xFF. */
  function Mixed(s: seq<byte>): nat {
    if s == [] then 0 else (if IsFill(s[0]) then 0 else 1) + Mixed(s[1..])
  }

  lemma {:induction false} MixedSum(s: seq<byte>, t: seq<byte>)
    ensures Mixed(s + t) == Mixed(s) + Mixed(t)
  {
    if s == [] {
      assert s + t == t;
    } else {
      assert (s + t)[1..] == s[1..] + t;
      MixedSum(s[1..], t);
    }
  }

  lemma {:induction false} MixedFill(b: byte, n: nat)
    requires IsFill(b)
    ensures Mixed(Fill(b, n)) == 0
  {
    if n > 0 {
      assert Fill(b, n)[1..] == Fill(b, n - 1);
      MixedFill(b, n - 1);
    }
  }

  lemma MixedFilled(b: byte, n: nat, t: seq<byte>)
    requires IsFill(b)
    ensures Mixed(Fill(b, n) + t) == Mixed(t)
  {
    MixedSum(Fill(b, n), t);
    MixedFill(b, n);
  }

  /** The literals of a token list. */
  function Literals(ts: seq<Token>): nat {
    if ts == [] then 0 else (if ts[0].Lit? then 1 else 0) + Literals(ts[1..])
  }

  lemma {:induction false} MixedOfData(ts: seq<Token>)
    requires AllReadable(ts)
    ensures Mixed(Data(ts)) == Literals(ts)
  {
    if ts != [] {
      StoredCons(ts);
      MixedSum(TokenData(ts[0]), Data(ts[1..]));
      MixedOfData(ts[1..]);
      match ts[0]
      case Lit(b) => assert [b][1..] == [];
      case Run(f, c) => MixedFill(f, c);
    }
  }

  /**
   Reading that has fallen out of step with `e`: from the high byte of a run's count, from its
   low byte, or with a count that takes the first two bytes. It falls into step again, and then
   the bytes are a complete form, or it reads no literal that does not cost it one of `e`.
  */
  lemma {:induction false} FromHigh(hi: byte, e: seq<Token>)
    requires AllReadable(e)
    ensures Complete([hi] + Stored(e)) || Mixed(Decoded([hi] + Stored(e))) <= Literals(e)
    decreases |e|, 1
  {
    hide Stored, Decoded, Mixed, Complete, Word, From, ByteAfter;
    var s := Stored(e);
    if !IsFill(hi) {
      CompleteStored(e);
      CompleteCons(Lit(hi), s);
    } else {
      FromTwo(e);
      MixedAfterRun(hi, s);
      if |s| >= 2 && Complete(From(s, 2)) {
        RunAgain(hi, s);
      }
    }
  }

  /** A run that takes its count from the first two bytes of `s` is no literal. */
  lemma MixedAfterRun(b: byte, s: seq<byte>)
    requires IsFill(b)
    ensures Mixed(Decoded([b] + s)) == Mixed(Decoded(From(s, 2)))
  {
    assert From([b] + s, 3) == From(s, 2);
    hide Mixed, Word, From, ByteAfter;
    MixedFilled(b, Word(ByteAfter([b] + s, 1), ByteAfter([b] + s, 2)), Decoded(From(s, 2)));
  }

  /** A run whose count is the first two bytes of `s`. */
  lemma RunAgain(b: byte, s: seq<byte>)
    requires IsFill(b) && |s| >= 2 && Complete(From(s, 2))
    ensures Complete([b] + s)
  {
    var x, y := s[0], s[1];
    var t := Run(b, Word(x, y));
    WordBytes(x, y);
    CompleteCons(t, s[2..]);
    assert TokenBytes(t) + s[2..] == [b] + s;
  }

  lemma WordBytes(x: byte, y: byte)
    ensures Word(x, y) <= MAX_RUN && LowByte(Word(x, y)) == x && HighByte(Word(x, y)) == y
  {
  }

  lemma {:induction false} FromLow(lo: byte, hi: byte, e: seq<Token>)
    requires AllReadable(e)
    ensures Complete([lo, hi] + Stored(e)) || Mixed(Decoded([lo, hi] + Stored(e))) <= 1 + Literals(e)
    decreases |e|, 2
  {
    hide Stored, Decoded, Mixed, Complete, Word, From, ByteAfter;
    var s := Stored(e);
    if !IsFill(lo) {
      FromHigh(hi, e);
      DecodedLit(lo, [hi] + s);
      assert [lo] + ([hi] + s) == [lo, hi] + s;
      MixedSum([lo], Decoded([hi] + s));
      OneMixed(lo);
      if Complete([hi] + s) {
        CompleteCons(Lit(lo), [hi] + s);
      }
    } else if e == [] {
      EndsInRun(lo, hi);
    } else {
      FromLowRun(lo, hi, e);
    }
  }

  lemma OneMixed(b: byte)
    requires !IsFill(b)
    ensures Mixed([b]) == 1
  {
    assert [b][1..] == [];
  }

  lemma EndsInRun(lo: byte, hi: byte)
    requires IsFill(lo)
    ensures Stored([]) == [] && Mixed(Decoded([lo, hi] + Stored([]))) == 0
  {
    var s := [lo, hi];
    assert s + Stored([]) == s && From(s, 3) == [];
    MixedFilled(lo, Word(hi, 0), []);
  }

  lemma {:induction false} FromLowRun(lo: byte, hi: byte, e: seq<Token>)
    requires AllReadable(e) && IsFill(lo) && e != []
    ensures Complete([lo, hi] + Stored(e)) || Mixed(Decoded([lo, hi] + Stored(e))) <= 1 + Literals(e)
    decreases |e|, 1
  {
    hide Stored, Decoded, Mixed, Complete, Word, LowByte, HighByte, From;
    var b, tail := SecondByte(e);
    assert [lo, hi] + Stored(e) == [lo, hi, b] + tail;
    DecodedRun(lo, hi, b, tail);
    MixedFilled(lo, Word(hi, b), Decoded(tail));
    if e[0].Lit? {
      CompleteStored(e[1..]);
    } else {
      FromLow(LowByte(e[0].count), HighByte(e[0].count), e[1..]);
    }
    if Complete(tail) {
      RunBefore(lo, hi, b, tail);
    }
  }

  /** The first byte of a stored list, and what follows it. */
  lemma SecondByte(e: seq<Token>) returns (b: byte, tail: seq<byte>)
    requires AllReadable(e) && e != []
    ensures Stored(e) == [b] + tail
    ensures tail == (if e[0].Lit? then Stored(e[1..])
                     else [LowByte(e[0].count), HighByte(e[0].count)] + Stored(e[1..]))
    ensures AllReadable(e[1..]) && Literals(e) == (if e[0].Lit? then 1 else 0) + Literals(e[1..])
  {
    StoredCons(e);
    hide Stored, LowByte, HighByte;
    b, tail := Stored(e)[0], Stored(e)[1..];
  }

  lemma RunBefore(lo: byte, hi: byte, b: byte, tail: seq<byte>)
    requires IsFill(lo) && Complete(tail)
    ensures Complete([lo, hi, b] + tail)
  {
    hide Complete;
    assert From([hi, b] + tail, 2) == tail;
    RunAgain(lo, [hi, b] + tail);
    assert [lo] + ([hi, b] + tail) == [lo, hi, b] + tail;
  }

  lemma {:induction false} FromTwo(e: seq<Token>)
    requires AllReadable(e)
    ensures var s := Stored(e);
            (|s| >= 2 && Complete(From(s, 2))) || Mixed(Decoded(From(s, 2))) <= Literals(e)
    decreases |e|, 0
  {
    hide Stored, Decoded, Mixed, Complete, LowByte, HighByte;
    NothingDecoded();
    if e != [] {
      var b, tail := SecondByte(e);
      if e[0].Run? {
        var c := e[0].count;
        assert Stored(e)[2..] == [HighByte(c)] + Stored(e[1..]);
        FromHigh(HighByte(c), e[1..]);
      } else if e[1..] != [] {
        var b', tail' := SecondByte(e[1..]);
        assert Stored(e)[2..] == tail';
        if e[1].Lit? {
          CompleteStored(e[1..][1..]);
        } else {
          FromLow(LowByte(e[1].count), HighByte(e[1].count), e[1..][1..]);
        }
      }
    }
  }

  lemma NothingDecoded()
    ensures Mixed(Decoded([])) == 0 && Stored([]) == []
  {
  }

  // ---------- The forward merge is never right for the decoder either ----------

  /** With a carry, what follows the run starts with a byte that is none of the run. */
  lemma FirstIsWrong(post: seq<Token>)
    requires AllWellFormed(post) && post != [] && post[0] != Lit(254)
    ensures var d := Decoded(BumpFirst(Stored(post))); (d != [] && d[0] != 255) || Complete(BumpFirst(Stored(post)))
  {
    hide Stored, Decoded, Complete, LowByte, HighByte;
    var b, tail := SecondByte(post);
    assert BumpFirst([b] + tail) == [Succ(b)] + tail;
    FirstOf(post, b, tail);
    if b == 255 {
      var u := Run(0, post[0].count);
      CompleteStored(post[1..]);
      CompleteCons(u, Stored(post[1..]));
      assert [0] + tail == TokenBytes(u) + Stored(post[1..]);
    } else {
      DecodedLit(Succ(b), tail);
    }
  }

  /** A stored list begins with its first token. */
  lemma FirstOf(post: seq<Token>, b: byte, tail: seq<byte>)
    requires AllWellFormed(post) && post != [] && Stored(post) == [b] + tail
    ensures match post[0]
            case Lit(v) => b == v && !IsFill(v)
            case Run(f, c) => b == f && IsFill(f) && 0 < c <= MAX_RUN
  {
    StoredCons(post);
    assert WellFormed(post[0]);
    hide Stored;
    assert b == ([b] + tail)[0] == TokenBytes(post[0])[0];
  }

  /** With a carry into the literal 254 the decoder falls out of step, and finds too few literals. */
  lemma TooFewLiterals(lo: nat, c: nat, post: seq<Token>)
    requires AllWellFormed(post) && post != [] && post[0] == Lit(254)
    requires !Complete(BumpFirst(Stored(post)))
    ensures Fill(255, lo) + Decoded(BumpFirst(Stored(post))) != Fill(255, c + 1) + Data(post)
  {
    hide Stored, Data, Decoded, Complete, Mixed, From, Fill, BumpFirst, Literals;
    var e := post[1..];
    var s := Stored(e);
    BumpedLiteral(post);
    FromTwo(e);
    if |s| >= 2 && Complete(From(s, 2)) {
      RunAgain(255, s);
    }
    MixedAfterRun(255, s);
    MixedFilled(255, lo, Decoded([255] + s));
    MixedFilled(255, c + 1, Data(post));
    MixedOfData(post);
  }

  lemma BumpedLiteral(post: seq<Token>)
    requires AllWellFormed(post) && post != [] && post[0] == Lit(254)
    ensures AllWellFormed(post[1..]) && BumpFirst(Stored(post)) == [255] + Stored(post[1..])
    ensures Literals(post) == 1 + Literals(post[1..])
  {
    StoredCons(post);
    hide Stored;
    assert BumpFirst([254] + Stored(post[1..])) == [255] + Stored(post[1..]);
  }

  /** However the bytes are completed, the decoder does not read a run lengthened by one. */
  lemma DecodedBumpNeverRight(c: nat, post: seq<Token>)
    requires 0 < c < MAX_RUN && AllWellFormed(post)
    ensures Decoded(BumpWord(TokenBytes(Run(255, c)) + Stored(post), 2)) != Fill(255, c + 1) + Data(post)
  {
    var s := BumpWord(TokenBytes(Run(255, c)) + Stored(post), 2);
    BumpedWord(c, Stored(post));
    hide Stored, Data, BumpWord, Decoded, Fill;
    if Complete(s) {
      var bad: seq<Token> :| AllReadable(bad) && Stored(bad) == s;
      BumpNeverRight(c, post, bad);
      DecodedIfReads(s, Data(bad));
    } else {
      IncompleteBump(c, post, s);
    }
  }

  lemma IncompleteBump(c: nat, post: seq<Token>, s: seq<byte>)
    requires 0 < c < MAX_RUN && AllWellFormed(post) && !Complete(s)
    requires s == if c < 0xFF00 then TokenBytes(Run(255, c + 256)) + Stored(post)
                  else TokenBytes(Run(255, c - 0xFF00)) + BumpFirst(Stored(post))
    ensures Decoded(s) != Fill(255, c + 1) + Data(post)
  {
    hide Stored, Data, Decoded, Complete, TokenBytes;
    if c < 0xFF00 {
      CompleteStored(post);
      CompleteCons(Run(255, c + 256), Stored(post));
    } else {
      var r, x := Run(255, c - 0xFF00), BumpFirst(Stored(post));
      DecodedToken(r, x);
      if Complete(x) {
        CompleteCons(r, x);
      }
      NotEmptyPost(post);
      if post[0] == Lit(254) {
        TooFewLiterals(c - 0xFF00, c, post);
      } else {
        FirstIsWrong(post);
        var left, right := Fill(255, c - 0xFF00) + Decoded(x), Fill(255, c + 1) + Data(post);
        assert left[c - 0xFF00] == Decoded(x)[0] && right[c - 0xFF00] == 255;
      }
    }
  }

  lemma NotEmptyPost(post: seq<Token>)
    requires !Complete(BumpFirst(Stored(post)))
    ensures post != []
  {
    if post == [] {
      CompleteStored([]);
    }
  }

  /**
   Setting a clear bit in the run-length form leaves bytes that the decoder reads as the array
   with that bit set, if and only if the code does not take its forward-merge branch.
  */
  lemma DecodesRightIffNoForwardMerge(ts: seq<Token>, n: nat)
    requires AllWellFormed(ts) && !BitAt(Data(ts), n)
    ensures Decoded(StoredAfterSet(ts, n)) == SetBitAt(Data(ts), n) <==> !MergesForward(ts, n)
  {
    if MergesForward(ts, n) {
      DecodesWrongAfterMerge(ts, n);
    } else {
      SetRightIffNoForwardMerge(ts, n);
      DecodedIfReads(StoredAfterSet(ts, n), SetBitAt(Data(ts), n));
    }
  }

  lemma DecodesWrongAfterMerge(ts: seq<Token>, n: nat)
    requires AllWellFormed(ts) && !BitAt(Data(ts), n) && MergesForward(ts, n)
    ensures Decoded(StoredAfterSet(ts, n)) != SetBitAt(Data(ts), n)
  {
    hide Data, Stored, Locate, SetTokens, SetBitAt, BumpWord, Decoded;
    SetTokensSetsBit(ts, n);
    MergeForwardTokens(ts, n);
    var i := Locate(ts, n / 8);
    var pre, c, post := ts[..i], ts[i + 1].count, ts[i + 2..];
    MergeForwardGoal(pre, c, post);
    var x := BumpWord(TokenBytes(Run(255, c)) + Stored(post), 2);
    DecodedStored(pre, x);
    DecodedBumpNeverRight(c, post);
    if Data(pre) + Decoded(x) == Data(pre) + (Fill(255, c + 1) + Data(post)) {
      SameHead(Data(pre), Decoded(x), Fill(255, c + 1) + Data(post));
    }
  }
}
