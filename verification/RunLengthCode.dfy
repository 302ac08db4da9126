/**
 The run-length form of `BaseLayer/SFBitArray.cpp`, as token lists: a byte that is neither
 0x00 nor 0xFF stands for itself, and a run of 0x00 or 0xFF bytes is stored as that byte
 and a 16-bit count.
*/
module RunLengthCode {
  import opened Bytes

  const MAX_RUN := 65535

  datatype Token = Lit(value: byte) | Run(fill: byte, count: nat)

  predicate IsFill(b: byte) {
    b == 0 || b == 255
  }

  /** What the decoders accept as a token; an empty run is harmless to them. */
  predicate Readable(t: Token) {
    match t
    case Lit(b) => !IsFill(b)
    case Run(f, c) => IsFill(f) && c <= MAX_RUN
  }

  /** What the encoders produce: no run is empty. */
  predicate WellFormed(t: Token) {
    Readable(t) && (t.Run? ==> t.count > 0)
  }

  predicate AllReadable(ts: seq<Token>) {
    forall i :: 0 <= i < |ts| ==> Readable(ts[i])
  }

  predicate AllWellFormed(ts: seq<Token>) {
    forall i :: 0 <= i < |ts| ==> WellFormed(ts[i])
  }

  function Fill(b: byte, n: nat): (s: seq<byte>)
    ensures |s| == n && forall i :: 0 <= i < n ==> s[i] == b
  {
    seq(n, _ => b)
  }

  /** The bytes that store a token. */
  function TokenBytes(t: Token): (s: seq<byte>)
    ensures |s| == if t.Lit? then 1 else 3
  {
    match t
    case Lit(b) => [b]
    case Run(f, c) => [f, LowByte(c), HighByte(c)]
  }

  /** The bytes that a token stands for. */
  function TokenData(t: Token): seq<byte> {
    match t
    case Lit(b) => [b]
    case Run(f, c) => Fill(f, c)
  }

  function Stored(ts: seq<Token>): seq<byte> {
    if ts == [] then [] else TokenBytes(ts[0]) + Stored(ts[1..])
  }

  function Data(ts: seq<Token>): seq<byte> {
    if ts == [] then [] else TokenData(ts[0]) + Data(ts[1..])
  }

  lemma {:induction false} Append(a: seq<Token>, b: seq<Token>)
    ensures Stored(a + b) == Stored(a) + Stored(b)
    ensures Data(a + b) == Data(a) + Data(b)
  {
    if a == [] {
      assert a + b == b;
      assert Stored(a) + Stored(b) == Stored(b) && Data(a) + Data(b) == Data(b);
    } else {
      StoredCons(a);
      StoredCons(a + b);
      hide Stored, Data, TokenBytes, TokenData;
      assert (a + b)[0] == a[0] && (a + b)[1..] == a[1..] + b;
      Append(a[1..], b);
      Assoc(TokenBytes(a[0]), Stored(a[1..]), Stored(b));
      Assoc(TokenData(a[0]), Data(a[1..]), Data(b));
    }
  }

  lemma Single(t: Token)
    ensures Stored([t]) == TokenBytes(t) && Data([t]) == TokenData(t)
  {
    assert Stored([t][1..]) == [] && Data([t][1..]) == [];
  }

  lemma SplitLast(ts: seq<Token>)
    requires ts != []
    ensures Stored(ts) == Stored(ts[..|ts| - 1]) + TokenBytes(ts[|ts| - 1])
    ensures Data(ts) == Data(ts[..|ts| - 1]) + TokenData(ts[|ts| - 1])
  {
    var front, last := ts[..|ts| - 1], ts[|ts| - 1];
    assert ts == front + [last];
    Append(front, [last]);
    Single(last);
  }

  lemma SplitAt(ts: seq<Token>, i: nat)
    requires i < |ts|
    ensures Stored(ts) == Stored(ts[..i]) + TokenBytes(ts[i]) + Stored(ts[i + 1..])
    ensures Data(ts) == Data(ts[..i]) + TokenData(ts[i]) + Data(ts[i + 1..])
  {
    var rest := ts[i..];
    assert ts == ts[..i] + rest;
    Append(ts[..i], rest);
    StoredCons(rest);
    hide Stored, Data, TokenBytes, TokenData;
    assert rest[0] == ts[i] && rest[1..] == ts[i + 1..];
    Assoc(Stored(ts[..i]), TokenBytes(ts[i]), Stored(ts[i + 1..]));
    Assoc(Data(ts[..i]), TokenData(ts[i]), Data(ts[i + 1..]));
  }

  /** The first token of a stored list can be read off its first bytes. */
  lemma SameFirst(t: Token, u: Token, x: seq<byte>, y: seq<byte>)
    requires Readable(t) && Readable(u) && TokenBytes(t) + x == TokenBytes(u) + y
    ensures t == u && x == y
  {
    var s := TokenBytes(t) + x;
    assert s[0] == TokenBytes(t)[0] == TokenBytes(u)[0];
    assert t.Lit? == u.Lit?;
    assert x == s[|TokenBytes(t)|..] && y == s[|TokenBytes(u)|..];
    if t.Run? {
      assert s[1] == TokenBytes(t)[1] == TokenBytes(u)[1];
      assert s[2] == TokenBytes(t)[2] == TokenBytes(u)[2];
    }
  }

  /** Reading is deterministic: a stored prefix is read the same whatever follows it. */
  lemma {:induction false} ReadsPrefix(a: seq<Token>, ts: seq<Token>, x: seq<byte>)
    requires AllReadable(a) && AllReadable(ts) && Stored(ts) == Stored(a) + x
    ensures |a| <= |ts| && ts[..|a|] == a && Stored(ts[|a|..]) == x
  {
    if a == [] {
      assert ts[0..] == ts && Stored(a) + x == x;
    } else {
      assert Stored(a) != [];
      assert ts != [];
      StoredCons(a);
      StoredCons(ts);
      hide Stored, TokenBytes;
      Assoc(TokenBytes(a[0]), Stored(a[1..]), x);
      SameFirst(ts[0], a[0], Stored(ts[1..]), Stored(a[1..]) + x);
      ReadsPrefix(a[1..], ts[1..], x);
      assert ts[1..][|a| - 1..] == ts[|a|..];
      assert ts[..|a|] == [ts[0]] + ts[1..][..|a| - 1];
    }
  }

  lemma StoredCons(ts: seq<Token>)
    requires ts != []
    ensures Stored(ts) == TokenBytes(ts[0]) + Stored(ts[1..])
    ensures Data(ts) == TokenData(ts[0]) + Data(ts[1..])
  {
  }

  /** A byte string stores at most one token list. */
  lemma StoredInjective(a: seq<Token>, b: seq<Token>)
    requires AllReadable(a) && AllReadable(b) && Stored(a) == Stored(b)
    ensures a == b
  {
    ReadsPrefix(a, b, []);
    assert |b[|a|..]| == 0;
  }

  // ---------- Runs that are as long as they can be ----------

  /** Two neighbouring runs of the same byte occur only behind a count that cannot be higher. */
  predicate Maximal(ts: seq<Token>) {
    forall i :: 0 <= i < |ts| - 1 && ts[i].Run? && ts[i + 1].Run? && ts[i].fill == ts[i + 1].fill ==>
      ts[i].count == 65535
  }

  lemma FirstByte(ts: seq<Token>)
    requires AllWellFormed(ts) && ts != []
    ensures Data(ts) != [] && Data(ts)[0] == if ts[0].Lit? then ts[0].value else ts[0].fill
  {
    assert WellFormed(ts[0]);
    StoredCons(ts);
    hide Data;
  }

  /** Behind a run that is not the longest possible the data ends, or goes on with another byte. */
  lemma AfterRun(ts: seq<Token>)
    requires AllWellFormed(ts) && Maximal(ts) && ts != [] && ts[0].Run?
    ensures ts[0].count <= |Data(ts)| && forall k :: 0 <= k < ts[0].count ==> Data(ts)[k] == ts[0].fill
    ensures ts[0].count < 65535 && ts[0].count < |Data(ts)| ==> Data(ts)[ts[0].count] != ts[0].fill
  {
    StoredCons(ts);
    if ts[1..] != [] {
      FirstByte(ts[1..]);
      assert WellFormed(ts[1]);
    }
    hide Stored;
  }

  /** Of all lists that stand for the same bytes, only one has no run that could be longer. */
  lemma {:induction false} MaximalIsUnique(a: seq<Token>, b: seq<Token>)
    requires AllWellFormed(a) && AllWellFormed(b) && Maximal(a) && Maximal(b) && Data(a) == Data(b)
    ensures a == b
  {
    hide Stored, Data, TokenBytes, TokenData;
    NoData();
    if a != [] && b != [] {
      SameFirstToken(a, b);
      StoredCons(a);
      StoredCons(b);
      SameHead(TokenData(a[0]), Data(a[1..]), Data(b[1..]));
      MaximalIsUnique(a[1..], b[1..]);
      assert a == [a[0]] + a[1..] && b == [b[0]] + b[1..];
    } else if a != [] {
      FirstByte(a);
    } else if b != [] {
      FirstByte(b);
    }
  }

  lemma NoData()
    ensures Data([]) == []
  {
  }

  lemma SameFirstToken(a: seq<Token>, b: seq<Token>)
    requires AllWellFormed(a) && AllWellFormed(b) && Maximal(a) && Maximal(b) && Data(a) == Data(b)
    requires a != [] && b != []
    ensures a[0] == b[0]
  {
    FirstByte(a);
    FirstByte(b);
    assert WellFormed(a[0]) && WellFormed(b[0]);
    if a[0].Run? && b[0].Run? {
      AfterRun(a);
      AfterRun(b);
    }
    hide Data, Maximal, AllWellFormed;
  }

  lemma SameHead(h: seq<byte>, a: seq<byte>, b: seq<byte>)
    requires h + a == h + b
    ensures a == b
  {
    assert a == (h + a)[|h|..] && b == (h + b)[|h|..];
  }

  /** A run of two zero bytes, a literal, and a run of 258 bytes 0xFF, byte by byte. */
  lemma StoredExample()
    ensures var ts := [Run(0, 2), Lit(5), Run(255, 258)];
            Stored(ts) == [0, 2, 0, 5, 255, 2, 1] && Data(ts) == [0, 0, 5] + Fill(255, 258)
  {
    var ts := [Run(0, 2), Lit(5), Run(255, 258)];
    assert ts[1..] == [Lit(5), Run(255, 258)] && ts[1..][1..] == [Run(255, 258)] && ts[1..][1..][1..] == [];
  }

  /** The bytes 0, 0, 5 have one form with runs that are as long as they can be. */
  lemma MaximalExample(ts: seq<Token>)
    requires AllWellFormed(ts) && Maximal(ts) && Data(ts) == [0, 0, 5]
    ensures Stored(ts) == [0, 2, 0, 5]
  {
    var us := [Run(0, 2), Lit(5)];
    assert us[1..] == [Lit(5)] && us[1..][1..] == [];
    assert Data(us) == [0, 0, 5] && Stored(us) == [0, 2, 0, 5];
    hide Data, Stored;
    MaximalIsUnique(ts, us);
  }

  // ---------- The forward merge is never right ----------

  /** One more, modulo 256. */
  function Succ(b: byte): byte {
    if b == 255 then 0 else b + 1
  }

  function BumpFirst(s: seq<byte>): seq<byte> {
    if s == [] then [] else [Succ(s[0])] + s[1..]
  }

  /** The 16-bit word at `i` plus one; a byte past the end is not part of the string. */
  function BumpWord(s: seq<byte>, i: nat): (r: seq<byte>)
    requires i < |s|
    ensures |r| == |s|
  {
    if s[i] < 255 then s[i := s[i] + 1] else s[..i] + [0] + BumpFirst(s[i + 1..])
  }

  ghost function LastOf(s: seq<byte>): byte
    requires s != []
  {
    s[|s| - 1]
  }

  lemma SameTail(l: seq<byte>, r: seq<byte>, t: seq<byte>)
    requires l + t == r + t
    ensures l == r
  {
    assert l == (l + t)[..|l|] && r == (r + t)[..|r|];
  }

  lemma LastOfSum(l: seq<byte>, r: seq<byte>)
    requires r != []
    ensures LastOf(l + r) == LastOf(r)
  {
  }

  /** Different last tokens that end in the same stored byte stand for data with different last bytes. */
  lemma DifferentLast(el: Token, al: Token, se: seq<byte>, sa: seq<byte>, fe: seq<byte>, fa: seq<byte>)
    requires WellFormed(el) && Readable(al)
    requires se == fe + TokenBytes(el) && sa == fa + TokenBytes(al) && |sa| + 2 == |se| && se[2..] == sa
    ensures el == al || (TokenData(el) != [] && TokenData(al) != [] && LastOf(TokenData(el)) != LastOf(TokenData(al)))
  {
    var n, m := |se|, |sa|;
    assert se[n - 1] == sa[m - 1];
    if el.Run? && al.Run? {
      assert se[n - 2] == sa[m - 2] && se[n - 3] == sa[m - 3];
      assert el.fill == se[n - 3] && al.fill == sa[m - 3];
      assert LowByte(el.count) == se[n - 2] && LowByte(al.count) == sa[m - 2];
      assert HighByte(el.count) == se[n - 1] && HighByte(al.count) == sa[m - 1];
      assert el == al;
    } else if el.Lit? && al.Lit? {
      assert el == al;
    }
  }

  lemma StripLast(x: byte, y: byte, fe: seq<byte>, fa: seq<byte>, t: seq<byte>)
    requires fe + t == [x, y] + (fa + t)
    ensures fe == [x, y] + fa
  {
    assert [x, y] + (fa + t) == [x, y] + fa + t;
    SameTail(fe, [x, y] + fa, t);
  }

  /**
   Two readings of one byte string that fall out of step by two bytes stay out of step, and
   what they read cannot come out equal at the end.
  */
  lemma {:induction false} Drift(x: byte, y: byte, e: seq<Token>, a: seq<Token>, p: seq<byte>, q: seq<byte>)
    requires AllWellFormed(e) && AllReadable(a)
    requires Stored(e) == [x, y] + Stored(a)
    ensures p + Fill(255, Word(x, y)) + Data(a) != q + Data(e)
    decreases |a|
  {
    var u := p + Fill(255, Word(x, y));
    if a == [] {
      DriftEnd(x, y, e, p, q);
      assert u + Data(a) == u;
    } else {
      assert e != [];
      hide Word, Stored, Data, TokenBytes, TokenData, Fill;
      var e', a', el, al := e[..|e| - 1], a[..|a| - 1], e[|e| - 1], a[|a| - 1];
      SplitLast(e);
      SplitLast(a);
      Assoc(u, Data(a'), TokenData(al));
      Assoc(q, Data(e'), TokenData(el));
      if el == al {
        StripLast(x, y, Stored(e'), Stored(a'), TokenBytes(al));
        Drift(x, y, e', a', p, q);
        if u + Data(a) == q + Data(e) {
          SameTail(u + Data(a'), q + Data(e'), TokenData(al));
        }
      } else {
        var se, sa := Stored(e), Stored(a);
        assert |se| == |sa| + 2 && se[2..] == sa;
        DifferentLast(el, al, se, sa, Stored(e'), Stored(a'));
        LastOfSum(u + Data(a'), TokenData(al));
        LastOfSum(q + Data(e'), TokenData(el));
      }
    }
  }

  lemma DriftEnd(x: byte, y: byte, e: seq<Token>, p: seq<byte>, q: seq<byte>)
    requires AllWellFormed(e) && Stored(e) == [x, y]
    ensures p + Fill(255, Word(x, y)) != q + Data(e)
  {
    assert e != [];
    var el := e[|e| - 1];
    SplitLast(e);
    assert el.Lit?;
    assert y == LastOf(Stored(e)) == el.value;
    LastOfSum(q + Data(e[..|e| - 1]), TokenData(el));
    assert q + Data(e) == (q + Data(e[..|e| - 1])) + TokenData(el);
    LastOfSum(p, Fill(255, Word(x, y)));
  }

  /** The bytes after the forward merge, when the bump stays inside the run's count. */
  lemma BumpWithoutCarry(c: nat, post: seq<Token>, bad: seq<Token>)
    requires 0 < c < 0xFF00 && AllWellFormed(post) && AllReadable(bad)
    requires Stored(bad) == TokenBytes(Run(255, c + 256)) + Stored(post)
    ensures Data(bad) != Fill(255, c + 1) + Data(post)
  {
    var r := Run(255, c + 256);
    Single(r);
    ReadsPrefix([r], bad, Stored(post));
    StoredInjective(bad[1..], post);
    assert bad == [r] + post;
    Append([r], post);
    assert |Data(bad)| != |Fill(255, c + 1) + Data(post)|;
  }

  /** The first byte read after the run is wrong, or reading has fallen out of step. */
  lemma BumpWithCarry(c: nat, post: seq<Token>, rest: seq<Token>)
    requires 0xFF00 <= c < MAX_RUN && AllWellFormed(post) && AllReadable(rest)
    requires Stored(rest) == BumpFirst(Stored(post))
    ensures Fill(255, c - 0xFF00) + Data(rest) != Fill(255, c + 1) + Data(post)
  {
    var lo := c - 0xFF00;
    var left, right := Fill(255, lo) + Data(rest), Fill(255, c + 1) + Data(post);
    if post == [] {
      assert rest == [] by {
        assert rest != [] ==> |Stored(rest)| > 0;
      }
      assert |left| != |right|;
    } else if post[0] == Lit(254) {
      CarryOutOfStep(lo, c, post, rest);
    } else {
      CarryWrongByte(post, rest);
      assert left[lo] == TokenData(rest[0])[0];
      assert right[lo] == 255;
    }
  }

  lemma CarryWrongByte(post: seq<Token>, rest: seq<Token>)
    requires AllWellFormed(post) && AllReadable(rest) && post != [] && post[0] != Lit(254)
    requires Stored(rest) == BumpFirst(Stored(post))
    ensures rest != [] && TokenData(rest[0]) != [] && TokenData(rest[0])[0] != 255
  {
    var s, s' := Stored(post), Stored(rest);
    assert rest != [];
    assert TokenBytes(rest[0])[0] == s'[0] == Succ(s[0]);
    assert TokenBytes(post[0])[0] == s[0];
    if post[0].Run? && post[0].fill == 255 {
      assert rest[0].Run?;
      assert s'[1] == s[1] && s'[2] == s[2];
      assert TokenBytes(rest[0])[1] == s'[1] && TokenBytes(rest[0])[2] == s'[2];
      assert TokenBytes(post[0])[1] == s[1] && TokenBytes(post[0])[2] == s[2];
      assert rest[0].count == post[0].count;
    }
  }

  /** A token that starts with 0xFF is a run, and its count is in the next two bytes. */
  lemma HeadIsRun(t: Token, u: seq<byte>, tail: seq<byte>) returns (x: byte, y: byte)
    requires Readable(t) && TokenBytes(t) + u == [255] + tail
    ensures t == Run(255, Word(x, y)) && tail == [x, y] + u
  {
    var s := TokenBytes(t) + u;
    assert s[0] == TokenBytes(t)[0] == 255;
    assert t.Run? && t.fill == 255;
    x, y := LowByte(t.count), HighByte(t.count);
    assert TokenBytes(t) == [255, x, y];
    CountOfBytes(t.count);
    hide TokenBytes, Word, LowByte, HighByte;
    assert tail == s[1..];
    assert [255, x, y] + u == [255] + ([x, y] + u);
  }

  lemma CountOfBytes(c: nat)
    requires c <= MAX_RUN
    ensures Word(LowByte(c), HighByte(c)) == c
  {
  }

  lemma CarryOutOfStep(lo: nat, c: nat, post: seq<Token>, rest: seq<Token>)
    requires AllWellFormed(post) && AllReadable(rest) && post != [] && post[0] == Lit(254)
    requires Stored(rest) == BumpFirst(Stored(post))
    ensures Fill(255, lo) + Data(rest) != Fill(255, c + 1) + Data(post)
  {
    var tail := Stored(post[1..]);
    StoredCons(post);
    assert Stored(rest) == [255] + tail;
    assert rest != [];
    StoredCons(rest);
    assert TokenData(post[0]) == [254];
    hide Stored, Data, Fill, Word, TokenBytes;
    var x, y := HeadIsRun(rest[0], Stored(rest[1..]), tail);
    assert TokenData(rest[0]) == Fill(255, Word(x, y));
    Drift(x, y, post[1..], rest[1..], Fill(255, lo), Fill(255, c + 1) + [254]);
    Assoc(Fill(255, lo), Fill(255, Word(x, y)), Data(rest[1..]));
    Assoc(Fill(255, c + 1), [254], Data(post[1..]));
  }

  /** However the bytes left by the forward merge are read, they are not the run lengthened by one. */
  lemma BumpNeverRight(c: nat, post: seq<Token>, bad: seq<Token>)
    requires 0 < c < MAX_RUN && AllWellFormed(post) && AllReadable(bad)
    requires Stored(bad) == BumpWord(TokenBytes(Run(255, c)) + Stored(post), 2)
    ensures Data(bad) != Fill(255, c + 1) + Data(post)
  {
    BumpedWord(c, Stored(post));
    hide Stored, Data, BumpWord;
    if c < 0xFF00 {
      BumpWithoutCarry(c, post, bad);
    } else {
      var r := Run(255, c - 0xFF00);
      Single(r);
      ReadsPrefix([r], bad, BumpFirst(Stored(post)));
      assert bad == [r] + bad[1..];
      Append([r], bad[1..]);
      BumpWithCarry(c, post, bad[1..]);
    }
  }

  lemma BumpedWord(c: nat, tail: seq<byte>)
    requires 0 < c < MAX_RUN
    ensures BumpWord(TokenBytes(Run(255, c)) + tail, 2) ==
            if c < 0xFF00 then TokenBytes(Run(255, c + 256)) + tail
            else TokenBytes(Run(255, c - 0xFF00)) + BumpFirst(tail)
  {
    var s := TokenBytes(Run(255, c)) + tail;
    assert s[3..] == tail;
    assert s[..2] == [255, LowByte(c)];
  }
}
