/**
 The encoder of `DatabaseLayer/CppSQLite3.cpp` that turns any bytes into a string without the
 bytes 0x00 and 0x27, so that it can stand in an SQL literal, and its decoder.
*/
module BinaryText {
  import opened Bytes
  import opened Optional

  const QUOTE: byte := 0x27

  /** `(x - e) & 0xff` and `(x + e) & 0xff`. */
  function Minus(x: byte, e: byte): byte {
    if x >= e then x - e else x - e + 256
  }

  function Plus(x: byte, e: byte): byte {
    if x + e < 256 then x + e else x + e - 256
  }

  /** An offset the encoder may use. */
  predicate Allowed(e: nat) {
    0 < e < 256 && e != QUOTE
  }

  predicate NeedsEscape(c: byte) {
    c == 0 || c == 1 || c == QUOTE
  }

  function EncodeByte(c: byte): (s: seq<byte>)
    ensures |s| == if NeedsEscape(c) then 2 else 1
    ensures 0 !in s && QUOTE !in s
  {
    if c == 0 then [1, 1]
    else if c == 1 then [1, 2]
    else if c == QUOTE then [1, 3]
    else [c]
  }

  /** The encoded bytes after the offset byte. */
  function EncodeBytes(s: seq<byte>, e: byte): (t: seq<byte>)
    ensures 0 !in t && QUOTE !in t
  {
    if s == [] then [] else EncodeByte(Minus(s[0], e)) + EncodeBytes(s[1..], e)
  }

  /** What the decoder makes of the bytes after the offset byte, up to the terminator. */
  function DecodeBytes(t: seq<byte>, e: byte): Option<seq<byte>> {
    if t == [] || t[0] == 0 then Some([])
    else if t[0] != 1 then
      Prepend(Plus(t[0], e), DecodeBytes(t[1..], e))
    else if |t| > 1 && 1 <= t[1] <= 3 then
      Prepend(Plus(Unescape(t[1]), e), DecodeBytes(t[2..], e))
    else None
  }

  function Unescape(c: byte): byte {
    if c == 1 then 0 else if c == 2 then 1 else QUOTE
  }

  function Prepend(x: byte, r: Option<seq<byte>>): Option<seq<byte>> {
    match r
    case None => None
    case Some(s) => Some([x] + s)
  }

  /** Decoding an encoding gives back the bytes, whatever the offset and whatever follows the terminator. */
  lemma {:induction false} DecodeEncode(s: seq<byte>, e: byte, rest: seq<byte>)
    ensures DecodeBytes(EncodeBytes(s, e) + [0] + rest, e) == Some(s)
  {
    if s != [] {
      var c := Minus(s[0], e);
      var tail := EncodeBytes(s[1..], e) + [0] + rest;
      assert EncodeBytes(s, e) + [0] + rest == EncodeByte(c) + tail;
      DecodeEncode(s[1..], e, rest);
      assert Plus(c, e) == s[0];
      if NeedsEscape(c) {
        assert (EncodeByte(c) + tail)[2..] == tail;
      } else {
        assert (EncodeByte(c) + tail)[1..] == tail;
      }
      assert [s[0]] + s[1..] == s;
    }
  }

  // ---------- How long the encoding gets ----------

  function Count(s: seq<byte>, b: byte): (n: nat)
    ensures n <= |s|
  {
    if s == [] then 0 else (if s[0] == b then 1 else 0) + Count(s[1..], b)
  }

  /** The number of bytes that offset `e` makes the encoder escape. */
  function Escapes(s: seq<byte>, e: byte): nat {
    if s == [] then 0 else (if NeedsEscape(Minus(s[0], e)) then 1 else 0) + Escapes(s[1..], e)
  }

  /** The encoder reads the number of escapes off its histogram. */
  lemma {:induction false} EscapesAreThreeCounts(s: seq<byte>, e: byte)
    ensures Escapes(s, e) == Count(s, e) + Count(s, Plus(e, 1)) + Count(s, Plus(e, QUOTE))
  {
    if s != [] {
      EscapesAreThreeCounts(s[1..], e);
      assert NeedsEscape(Minus(s[0], e)) <==> s[0] == e || s[0] == Plus(e, 1) || s[0] == Plus(e, QUOTE);
    }
  }

  lemma {:induction false} EncodedLength(s: seq<byte>, e: byte)
    ensures |EncodeBytes(s, e)| == |s| + Escapes(s, e)
  {
    if s != [] {
      EncodedLength(s[1..], e);
    }
  }

  /** The escapes summed over all allowed offsets below `k`. */
  function TotalEscapes(s: seq<byte>, k: nat): nat
    requires k <= 256
  {
    if k == 0 then 0 else TotalEscapes(s, k - 1) + if Allowed(k - 1) then Escapes(s, k - 1) else 0
  }

  function AllowedBelow(k: nat): nat {
    if k == 0 then 0 else AllowedBelow(k - 1) + if Allowed(k - 1) then 1 else 0
  }

  /** How many allowed offsets below `k` make byte `x` an escape. */
  function Hits(x: byte, k: nat): nat
    requires k <= 256
  {
    if k == 0 then 0
    else Hits(x, k - 1) + if Allowed(k - 1) && NeedsEscape(Minus(x, k - 1)) then 1 else 0
  }

  function Below(a: byte, k: nat): nat {
    if a < k then 1 else 0
  }

  /** A byte is escaped by at most three offsets. */
  lemma {:induction false} HitsAtMostThree(x: byte, k: nat)
    requires k <= 256
    ensures Hits(x, k) <= Below(x, k) + Below(Minus(x, 1), k) + Below(Minus(x, QUOTE), k)
  {
    if k > 0 {
      HitsAtMostThree(x, k - 1);
      assert NeedsEscape(Minus(x, k - 1)) <==> k - 1 == x || k - 1 == Minus(x, 1) || k - 1 == Minus(x, QUOTE);
    }
  }

  lemma {:induction false} TotalByFirst(s: seq<byte>, k: nat)
    requires s != [] && k <= 256
    ensures TotalEscapes(s, k) == Hits(s[0], k) + TotalEscapes(s[1..], k)
  {
    if k > 0 {
      TotalByFirst(s, k - 1);
    }
  }

  lemma {:induction false} TotalOfNothing(k: nat)
    requires k <= 256
    ensures TotalEscapes([], k) == 0
  {
    if k > 0 {
      TotalOfNothing(k - 1);
    }
  }

  lemma {:induction false} TotalAtMostThree(s: seq<byte>)
    ensures TotalEscapes(s, 256) <= 3 * |s|
  {
    if s == [] {
      TotalOfNothing(256);
    } else {
      TotalByFirst(s, 256);
      HitsAtMostThree(s[0], 256);
      TotalAtMostThree(s[1..]);
    }
  }

  function Times(a: nat, m: nat): nat {
    if a == 0 then 0 else Times(a - 1, m) + m
  }

  lemma {:induction false} TimesIsProduct(a: nat, m: nat)
    ensures Times(a, m) == a * m
  {
    if a > 0 {
      TimesIsProduct(a - 1, m);
    }
  }

  /** If every allowed offset below `k` costs at least `m` escapes, they add up. */
  lemma {:induction false} TotalAtLeast(s: seq<byte>, k: nat, m: nat)
    requires k <= 256 && forall e: byte :: e < k && Allowed(e) ==> Escapes(s, e) >= m
    ensures TotalEscapes(s, k) >= Times(AllowedBelow(k), m)
  {
    hide Escapes;
    if k > 0 {
      TotalAtLeast(s, k - 1, m);
    }
  }

  lemma {:induction false} CountAllowed(k: nat)
    requires k <= 256
    ensures AllowedBelow(k) == if k == 0 then 0 else if k <= QUOTE then k - 1 else k - 2
  {
    if k > 0 {
      CountAllowed(k - 1);
    }
  }

  /** The pigeonhole bound: the cheapest of the 254 allowed offsets escapes at most 3 bytes in 254. */
  lemma CheapestOffset(s: seq<byte>, m: nat)
    requires forall e: byte :: Allowed(e) ==> Escapes(s, e) >= m
    ensures 254 * m <= 3 * |s|
  {
    TotalAtLeast(s, 256, m);
    CountAllowed(256);
    TimesIsProduct(254, m);
    TotalAtMostThree(s);
  }

  // ---------- The encoder and the decoder ----------

  /** The text that stores `s`: an allowed offset byte and the encoded bytes. */
  ghost predicate Encodes(t: seq<byte>, s: seq<byte>) {
    && t != []
    && (s == [] || Allowed(t[0])) && t[0] != 0 && t[0] != QUOTE
    && t[1..] == EncodeBytes(s, t[0])
  }

  /** The first of the offsets that need the fewest escapes. */
  ghost predicate IsBest(s: seq<byte>, e: byte) {
    && Allowed(e)
    && forall d: byte :: Allowed(d) ==> if d < e then Escapes(s, e) < Escapes(s, d) else Escapes(s, e) <= Escapes(s, d)
  }

  /** The histogram of the bytes. */
  method Histogram(s: array<byte>, n: nat) returns (cnt: array<nat>)
    requires n <= s.Length
    ensures fresh(cnt) && cnt.Length == 256
    ensures forall b: byte :: cnt[b] == Count(s[..n], b)
  {
    cnt := new nat[256](_ => 0);
    var i: int := n - 1;
    assert s[n..n] == [];
    while i >= 0
      invariant -1 <= i < n
      invariant forall b: byte :: cnt[b] == Count(s[i + 1..n], b)
    {
      assert s[i..n][1..] == s[i + 1..n] && s[i..n][0] == s[i];
      cnt[s[i]] := cnt[s[i]] + 1;
      i := i - 1;
    }
    assert s[0..n] == s[..n];
  }

  lemma PlusIsMod(x: byte, e: byte)
    ensures Plus(x, e) == (x + e) % 256
  {
  }

  /** The offset that needs the fewest escapes; there always is one that needs fewer than `n`. */
  method BestOffset(cnt: array<nat>, n: nat, ghost s: seq<byte>) returns (e: byte)
    requires n == |s| > 0 && cnt.Length == 256 && forall b: byte :: cnt[b] == Count(s, b)
    ensures IsBest(s, e)
    ensures Escapes(s, e) < n && 254 * Escapes(s, e) <= 3 * n
  {
    hide Count, Escapes, Plus;
    var m, found, best: nat := n, false, 0;
    var i := 1;
    while i < 256
      invariant 1 <= i <= 256 && best < 256 && (found || m == n)
      invariant found ==> Allowed(best) && m == Escapes(s, best) < n
      invariant forall d: byte :: d < i && Allowed(d) ==> m <= Escapes(s, d)
      invariant found ==> best < i && forall d: byte :: d < best && Allowed(d) ==> m < Escapes(s, d)
    {
      if i != QUOTE {
        EscapesAreThreeCounts(s, i);
        PlusIsMod(i, 1);
        PlusIsMod(i, QUOTE);
        var sum := cnt[i] + cnt[(i + 1) % 256] + cnt[(i + QUOTE) % 256];
        if sum < m {
          m, best, found := sum, i, true;
          if m == 0 {
            break;
          }
        }
      }
      i := i + 1;
    }
    CheapestOffset(s, m);
    e := best;
  }

  /** Writes the text that stores the first `n` bytes of `s`, and a terminator; returns its length. */
  method EncodeBinary(s: array<byte>, n: nat, out: array<byte>) returns (j: nat)
    requires n <= s.Length && s != out && out.Length >= 2 + 257 * n / 254
    modifies out
    ensures 0 < j < out.Length && out[j] == 0 && j + 1 <= 2 + 257 * n / 254
    ensures Encodes(out[..j], s[..n])
    ensures if n == 0 then out[0] == 0x78 && j == 1 else IsBest(s[..n], out[0])
  {
    if n == 0 {
      out[0] := 0x78;
      out[1] := 0;
      assert out[..1] == [0x78];
      return 1;
    }
    var cnt := Histogram(s, n);
    var e := BestOffset(cnt, n, s[..n]);
    EncodedLength(s[..n], e);
    out[0] := e;
    j := Escape(s, n, e, out);
    out[j] := 0;
    assert out[..j] == [e] + EncodeBytes(s[..n], e);
  }

  /** Writes the encoded bytes after the offset. */
  method Escape(s: array<byte>, n: nat, e: byte, out: array<byte>) returns (j: nat)
    requires n <= s.Length && s != out && out.Length > 1 + |EncodeBytes(s[..n], e)| && out[0] == e
    modifies out
    ensures j == 1 + |EncodeBytes(s[..n], e)| && out[..j] == [e] + EncodeBytes(s[..n], e)
  {
    ghost var bytes := s[..n];
    ghost var goal := [e] + EncodeBytes(bytes, e);
    j := 1;
    var i := 0;
    assert bytes[0..] == bytes;
    hide EncodeBytes, EncodeByte, Minus;
    while i < n
      invariant i <= n && s[..n] == bytes && 0 < j
      invariant j + |EncodeBytes(bytes[i..], e)| == |goal| < out.Length
      invariant out[..j] + EncodeBytes(bytes[i..], e) == goal
    {
      EncodeFirst(bytes[i..], e);
      assert bytes[i..][1..] == bytes[i + 1..] && bytes[i..][0] == s[i];
      j := PutEncoded(out, j, Minus(s[i], e));
      i := i + 1;
    }
    NothingEncoded(bytes[n..], e);
    assert out[..j] + [] == out[..j];
  }

  method PutEncoded(out: array<byte>, at: nat, c: byte) returns (j: nat)
    requires at + |EncodeByte(c)| <= out.Length
    modifies out
    ensures j == at + |EncodeByte(c)| && out[..j] == old(out[..at]) + EncodeByte(c)
  {
    if c == 0 {
      out[at], out[at + 1] := 1, 1;
      j := at + 2;
    } else if c == 1 {
      out[at], out[at + 1] := 1, 2;
      j := at + 2;
    } else if c == QUOTE {
      out[at], out[at + 1] := 1, 3;
      j := at + 2;
    } else {
      out[at] := c;
      j := at + 1;
    }
  }

  lemma NothingEncoded(s: seq<byte>, e: byte)
    requires s == []
    ensures EncodeBytes(s, e) == []
  {
  }

  lemma EncodeFirst(s: seq<byte>, e: byte)
    requires s != []
    ensures EncodeBytes(s, e) == EncodeByte(Minus(s[0], e)) + EncodeBytes(s[1..], e)
  {
  }

  // ---------- Decoding, possibly in place ----------

  /** How many bytes the decoder writes for the bytes after the offset byte, before it stops or fails. */
  function Written(t: seq<byte>): nat {
    if t == [] || t[0] == 0 then 0
    else if t[0] != 1 then 1 + Written(t[1..])
    else if |t| > 1 && 1 <= t[1] <= 3 then 1 + Written(t[2..])
    else 0
  }

  /** A decoded text is no longer than what is written; nothing is written past the place of the terminator. */
  lemma {:induction false} WrittenFits(t: seq<byte>, e: byte, k: nat)
    requires k < |t| && t[k] == 0
    ensures Written(t) <= k
    ensures DecodeBytes(t, e).Some? ==> |DecodeBytes(t, e).value| == Written(t)
  {
    if t[0] == 1 && |t| > 1 && 1 <= t[1] <= 3 {
      WrittenFits(t[2..], e, k - 2);
    } else if t[0] > 1 {
      WrittenFits(t[1..], e, k - 1);
    }
  }

  /** The text ends with the first zero byte after the offset byte. */
  ghost predicate Terminated(t: seq<byte>) {
    |t| >= 2 && exists k :: 1 <= k < |t| && t[k] == 0
  }

  /**
   Decodes the text in `text` into `out`, which may be the same block. The write position
   never catches up with the read position. Returns -1 if the text is malformed.
  */
  method DecodeBinary(text: array<byte>, out: array<byte>) returns (n: int)
    requires Terminated(text[..]) && Written(text[1..]) <= out.Length
    modifies out
    ensures match DecodeBytes(old(text[1..]), old(text[0]))
            case None => n == -1
            case Some(s) => n == |s| && n <= out.Length && out[..n] == s
    ensures text != out ==> text[..] == old(text[..])
  {
    ghost var t := text[..];
    ghost var end :| 1 <= end < |t| && t[end] == 0;
    var e := text[0];
    var at, i := 1, 0;
    ghost var done: seq<byte> := [];
    PrependNothing(DecodeBytes(t[1..], e));
    hide DecodeBytes, Prepend, PrependAll, Written;
    assert text[1..] == t[1..];
    while true
      invariant i < at <= end && |done| == i && |t| == text.Length
      invariant i + Written(t[at..]) == Written(t[1..]) <= out.Length && out[..i] == done
      invariant text != out ==> text[..] == t
      invariant forall k :: at <= k < |t| ==> text[k] == t[k]
      invariant DecodeBytes(t[1..], e) == PrependAll(done, DecodeBytes(t[at..], e))
      decreases end - at
    {
      var stop, ok, c, next := NextByte(text, at, t, end, e);
      if stop {
        break;
      }
      if !ok {
        FailedAfter(done);
        return -1;
      }
      at := next;
      PrependOne(done, Plus(c, e), DecodeBytes(t[at..], e));
      done := done + [Plus(c, e)];
      out[i] := Plus(c, e);
      i := i + 1;
    }
    EndedAfter(done);
    n := i;
  }

  /** Reads one character, which may be an escape. */
  method NextByte(text: array<byte>, at: nat, ghost t: seq<byte>, ghost end: nat, e: byte)
      returns (stop: bool, ok: bool, c: byte, next: nat)
    requires |t| == text.Length && forall k :: at <= k < |t| ==> text[k] == t[k]
    requires at <= end < |t| && t[end] == 0
    ensures stop ==> DecodeBytes(t[at..], e) == Some([])
    ensures !stop && !ok ==> DecodeBytes(t[at..], e) == None
    ensures !stop && ok ==>
              at < next <= end && DecodeBytes(t[at..], e) == Prepend(Plus(c, e), DecodeBytes(t[next..], e))
    ensures !stop && ok ==> Written(t[at..]) == 1 + Written(t[next..])
  {
    DecodeFirst(t, at, e);
    hide DecodeBytes, Prepend, Written;
    stop, ok, c, next := false, true, text[at], at + 1;
    if c == 0 {
      stop := true;
    } else if c == 1 {
      c := text[next];
      next := next + 1;
      if c == 1 {
        c := 0;
      } else if c == 2 {
        c := 1;
      } else if c == 3 {
        c := QUOTE;
      } else {
        ok := false;
      }
    }
  }

  /** What the decoder does with the bytes at `at`. */
  lemma DecodeFirst(t: seq<byte>, at: nat, e: byte)
    requires at < |t|
    ensures t[at] == 0 ==> DecodeBytes(t[at..], e) == Some([])
    ensures t[at] > 1 ==> DecodeBytes(t[at..], e) == Prepend(Plus(t[at], e), DecodeBytes(t[at + 1..], e))
    ensures t[at] > 1 ==> Written(t[at..]) == 1 + Written(t[at + 1..])
    ensures t[at] == 1 && at + 1 < |t| && 1 <= t[at + 1] <= 3 ==> Written(t[at..]) == 1 + Written(t[at + 2..])
    ensures t[at] == 1 && at + 1 < |t| ==>
              DecodeBytes(t[at..], e) ==
              (if 1 <= t[at + 1] <= 3 then Prepend(Plus(Unescape(t[at + 1]), e), DecodeBytes(t[at + 2..], e)) else None)
  {
    assert t[at..][1..] == t[at + 1..];
    assert at + 1 < |t| ==> t[at..][2..] == t[at + 2..] && t[at..][1] == t[at + 1];
  }

  lemma PrependNothing(r: Option<seq<byte>>)
    ensures PrependAll([], r) == r
  {
    if r.Some? {
      assert [] + r.value == r.value;
    }
  }

  lemma FailedAfter(s: seq<byte>)
    ensures PrependAll(s, None) == None
  {
  }

  lemma EndedAfter(s: seq<byte>)
    ensures PrependAll(s, Some([])) == Some(s)
  {
    assert s + [] == s;
  }

  function PrependAll(s: seq<byte>, r: Option<seq<byte>>): Option<seq<byte>> {
    match r
    case None => None
    case Some(t) => Some(s + t)
  }

  lemma PrependOne(s: seq<byte>, x: byte, r: Option<seq<byte>>)
    ensures PrependAll(s, Prepend(x, r)) == PrependAll(s + [x], r)
  {
    if r.Some? {
      assert s + ([x] + r.value) == s + [x] + r.value;
    }
  }

  // ---------- The object that holds a value in either form ----------

  class Binary {
    var buf: array?<byte>
    var binaryLen: int
    var bufferLen: int
    var encodedLen: nat
    var encoded: bool
    /** The last value stored. */
    ghost var value: seq<byte>

    ghost predicate Valid()
      reads this, buf
    {
      if buf == null then binaryLen == 0
      else
        && buf.Length == bufferLen == 3 + 257 * |value| / 254
        && if encoded then
             0 < encodedLen < buf.Length && buf[encodedLen] == 0 && Encodes(buf[..encodedLen], value)
           else
             binaryLen == |value| && buf[..binaryLen] == value
    }

    constructor ()
      ensures Valid() && buf == null && !encoded && binaryLen == 0 && bufferLen == 0 && encodedLen == 0
    {
      buf, binaryLen, bufferLen, encodedLen, encoded, value := null, 0, 0, 0, false, [];
    }

    method Clear()
      requires Valid()
      modifies this
      ensures Valid() && buf == null && encoded == old(encoded)
    {
      if buf != null {
        binaryLen := 0;
        bufferLen := 0;
        buf := null;
      }
    }

    /** A block large enough for `n` bytes in either form; what it holds is not determined. */
    method AllocBuffer(n: nat)
      requires Valid()
      modifies this
      ensures Valid() && buf != null && fresh(buf) && !encoded && |value| == n
    {
      Clear();
      binaryLen := n;
      bufferLen := 3 + 257 * n / 254;
      buf := new byte[bufferLen];
      encoded := false;
      value := buf[..n];
    }

    /** Stores a copy of `n` bytes. They may not lie in the object's own block, which is given back first. */
    method SetBinary(p: array<byte>, n: nat)
      requires Valid() && n <= p.Length && p != buf
      modifies this
      ensures Valid() && buf != null && !encoded && value == old(p[..n])
    {
      AllocBuffer(n);
      forall i | 0 <= i < n {
        buf[i] := p[i];
      }
      value := p[..n];
      assert buf[..n] == value;
    }

    /** Turns the buffer into its text form, in place, unless it is that already; without a block it must be. */
    method GetEncoded() returns (p: array?<byte>)
      requires Valid() && (buf != null || encoded)
      modifies this, buf
      ensures Valid() && encoded && value == old(value) && p == buf == old(buf)
      ensures p != null ==> encodedLen < p.Length && Encodes(p[..encodedLen], value) && p[encodedLen] == 0
    {
      if !encoded {
        var tmp := new byte[binaryLen](_ => 0);
        forall i | 0 <= i < binaryLen {
          tmp[i] := buf[i];
        }
        assert tmp[..binaryLen] == value;
        encodedLen := EncodeBinary(tmp, binaryLen, buf);
        encoded := true;
      }
      p := buf;
    }

    /** Turns the buffer back into the value, in place, unless it is that already; decoding cannot fail. */
    method GetBinary() returns (p: array?<byte>)
      requires Valid() && (buf != null || !encoded)
      modifies this, buf
      ensures Valid() && !encoded && value == old(value) && p == buf == old(buf)
      ensures p != null ==> binaryLen == |value| <= p.Length && p[..binaryLen] == value
    {
      if encoded {
        EncodingDecodes(buf[..], encodedLen, value);
        assert buf[1..] == buf[..][1..];
        WrittenFits(buf[1..], buf[0], encodedLen - 1);
        binaryLen := DecodeBinary(buf, buf);
        encoded := false;
      }
      p := buf;
    }

    /** The length of the value; zero without a block. */
    method GetBinaryLength() returns (n: int)
      requires Valid() && (buf != null || !encoded)
      modifies this, buf
      ensures Valid() && !encoded && value == old(value) && n == if buf == null then 0 else |value|
    {
      var p := GetBinary();
      n := binaryLen;
    }
  }

  /** A block that starts with an encoding and its terminator decodes to the value. */
  lemma EncodingDecodes(t: seq<byte>, n: nat, s: seq<byte>)
    requires 0 < n < |t| && t[n] == 0 && Encodes(t[..n], s)
    ensures Terminated(t) && DecodeBytes(t[1..], t[0]) == Some(s)
  {
    assert t[1..] == t[..n][1..] + [0] + t[n + 1..];
    DecodeEncode(s, t[0], t[n + 1..]);
  }

  /** The three escapes with offset 5, a byte that needs none, and one that wraps around; and back. */
  lemma EscapeExample()
    ensures EncodeBytes([5, 6, 44, 7, 4], 5) == [1, 1, 1, 2, 1, 3, 2, 255]
    ensures DecodeBytes([1, 1, 1, 2, 1, 3, 2, 255, 0], 5) == Some([5, 6, 44, 7, 4])
  {
    var s, t: seq<byte> := [5, 6, 44, 7, 4], [1, 1, 1, 2, 1, 3, 2, 255];
    assert s[1..] == [6, 44, 7, 4] && s[1..][1..] == [44, 7, 4] && s[1..][1..][1..] == [7, 4];
    assert s[1..][1..][1..][1..] == [4] && s[1..][1..][1..][1..][1..] == [];
    DecodeEncode(s, 5, []);
    assert t + [0] + [] == [1, 1, 1, 2, 1, 3, 2, 255, 0];
  }

  /** Whatever follows an escape other than 1, 2 or 3 is refused. */
  lemma BadEscape(c: byte, t: seq<byte>, e: byte)
    requires c == 0 || c > 3
    ensures DecodeBytes([1, c] + t, e) == None
  {
  }
}
