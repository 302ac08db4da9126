/**
 The base64 text of `BaseLayer/External/base64.cpp` (section 4 of RFC 4648): three bytes make
 four letters, and `=` fills up the last group.
*/
module Base64 {
  import opened Bytes

  const UPPER := "ABCDEFGHIJKLMNOPQRSTUVWXYZ"
  const LOWER := "abcdefghijklmnopqrstuvwxyz"
  const REST := "0123456789+/"
  const ALPHABET := UPPER + LOWER + REST

  /** What `find` gives for a character outside the alphabet, cut down to one byte. */
  const NOT_FOUND := 255

  /** The place of a character in the alphabet. */
  function Find(c: char): (i: byte)
    ensures i < 64 || i == NOT_FOUND
  {
    if 'A' <= c <= 'Z' then (c - 'A') as int
    else if 'a' <= c <= 'z' then (c - 'a') as int + 26
    else if '0' <= c <= '9' then (c - '0') as int + 52
    else if c == '+' then 62
    else if c == '/' then 63
    else NOT_FOUND
  }

  predicate IsBase64(c: char) {
    'A' <= c <= 'Z' || 'a' <= c <= 'z' || '0' <= c <= '9' || c == '+' || c == '/'
  }

  lemma FindUpper(i: nat)
    requires i < 26
    ensures |UPPER| == 26 && Find(UPPER[i]) == i
  {
    assert
      i == 0 || i == 1 || i == 2 || i == 3 || i == 4 || i == 5 || i == 6 || i == 7 || i == 8 ||
      i == 9 || i == 10 || i == 11 || i == 12 || i == 13 || i == 14 || i == 15 || i == 16 || i == 17 ||
      i == 18 || i == 19 || i == 20 || i == 21 || i == 22 || i == 23 || i == 24 || i == 25;
  }

  lemma FindLower(i: nat)
    requires i < 26
    ensures |LOWER| == 26 && Find(LOWER[i]) == i + 26
  {
    assert
      i == 0 || i == 1 || i == 2 || i == 3 || i == 4 || i == 5 || i == 6 || i == 7 || i == 8 ||
      i == 9 || i == 10 || i == 11 || i == 12 || i == 13 || i == 14 || i == 15 || i == 16 || i == 17 ||
      i == 18 || i == 19 || i == 20 || i == 21 || i == 22 || i == 23 || i == 24 || i == 25;
  }

  lemma FindRest(i: nat)
    requires i < 12
    ensures |REST| == 12 && Find(REST[i]) == i + 52
  {
    assert
      i == 0 || i == 1 || i == 2 || i == 3 || i == 4 || i == 5 || i == 6 || i == 7 || i == 8 ||
      i == 9 || i == 10 || i == 11;
  }

  /** `Find` inverts the alphabet. */
  lemma FindAlphabet(i: nat)
    requires i < 64
    ensures |ALPHABET| == 64 && Find(ALPHABET[i]) == i && IsBase64(ALPHABET[i])
  {
    if i < 26 {
      FindUpper(i);
    } else if i < 52 {
      FindLower(i - 26);
    } else {
      FindRest(i - 52);
    }
  }

  /** A character outside the alphabet is not found; the others are found where they are. */
  lemma FindIsPlace(c: char)
    ensures IsBase64(c) <==> c in ALPHABET
    ensures IsBase64(c) ==> Find(c) < 64 && ALPHABET[Find(c)] == c
    ensures !IsBase64(c) ==> Find(c) == NOT_FOUND
  {
    if IsBase64(c) {
      var i := Find(c);
      FindAlphabet(i);
      SamePlace(ALPHABET[i], c);
    }
    if c in ALPHABET {
      var i :| 0 <= i < |ALPHABET| && ALPHABET[i] == c;
      FindAlphabet(0);
      FindAlphabet(i);
    }
  }

  lemma SamePlace(c: char, d: char)
    requires Find(c) == Find(d) < 64
    ensures c == d
  {
  }

  // ---------- Groups ----------

  function HighSix(a: byte): byte {
    a / 4
  }

  function TwoAndFour(a: byte, b: byte): (r: byte)
    ensures r < 64
  {
    a % 4 * 16 + b / 16
  }

  function FourAndTwo(b: byte, c: byte): (r: byte)
    ensures r < 64
  {
    b % 16 * 4 + c / 64
  }

  /** Three bytes as four numbers of six bits. */
  function Sextets(a: byte, b: byte, c: byte): (s: seq<byte>)
    ensures |s| == 4 && forall i :: 0 <= i < 4 ==> s[i] < 64
  {
    [HighSix(a), TwoAndFour(a, b), FourAndTwo(b, c), c % 64]
  }

  function First(s: byte, t: byte): byte {
    (s * 4 + t / 16 % 4) % 256
  }

  function Second(t: byte, u: byte): byte {
    (t % 16 * 16 + u / 4 % 16) % 256
  }

  function Third(u: byte, v: byte): byte {
    (u % 4 * 64 + v) % 256
  }

  /** Four numbers as three bytes; what does not fit a byte is cut off. */
  function Triple(s: byte, t: byte, u: byte, v: byte): (r: seq<byte>)
    ensures |r| == 3
  {
    [First(s, t), Second(t, u), Third(u, v)]
  }

  lemma Split16(q: nat, r: nat)
    requires r < 16
    ensures (q * 16 + r) / 16 == q && (q * 16 + r) % 16 == r
  {
  }

  lemma Split4(q: nat, r: nat)
    requires r < 4
    ensures (q * 4 + r) / 4 == q && (q * 4 + r) % 4 == r
  {
  }

  lemma Joined4(a: nat)
    ensures a / 4 * 4 + a % 4 == a
  {
  }

  lemma Joined16(b: nat)
    ensures b / 16 * 16 + b % 16 == b
  {
  }

  lemma Joined64(c: nat)
    ensures c / 64 * 64 + c % 64 == c
  {
  }

  lemma FirstOf(a: byte, b: byte)
    ensures First(HighSix(a), TwoAndFour(a, b)) == a
  {
    Split16(a % 4, b / 16);
    Joined4(a);
    assert (a % 4) % 4 == a % 4;
  }

  lemma SecondOf(a: byte, b: byte, c: byte)
    ensures Second(TwoAndFour(a, b), FourAndTwo(b, c)) == b
  {
    Split16(a % 4, b / 16);
    Split4(b % 16, c / 64);
    Joined16(b);
    hide TwoAndFour, FourAndTwo;
    SecondFrom(TwoAndFour(a, b), FourAndTwo(b, c), b);
  }

  lemma SecondFrom(t: byte, u: byte, b: byte)
    requires t % 16 == b / 16 && u / 4 == b % 16
    ensures Second(t, u) == b
  {
    Joined16(b);
    assert b % 16 % 16 == b % 16;
  }

  lemma ThirdOf(b: byte, c: byte)
    ensures Third(FourAndTwo(b, c), c % 64) == c
  {
    Split4(b % 16, c / 64);
    Joined64(c);
  }

  /** The bytes come back; for the last group the filled in numbers do not reach the bytes that are kept. */
  lemma TripleOfSextets(a: byte, b: byte, c: byte)
    ensures var s := Sextets(a, b, c); Triple(s[0], s[1], s[2], s[3]) == [a, b, c]
    ensures var s := Sextets(a, b, c); Triple(s[0], s[1], s[2], NOT_FOUND)[..2] == [a, b]
    ensures var s := Sextets(a, b, c); Triple(s[0], s[1], NOT_FOUND, NOT_FOUND)[..1] == [a]
  {
    FirstOf(a, b);
    SecondOf(a, b, c);
    ThirdOf(b, c);
    hide First, Second, Third, HighSix, TwoAndFour, FourAndTwo;
  }

  function Letter(i: byte): char
    requires i < 64
  {
    FindAlphabet(i);
    ALPHABET[i]
  }

  function Letters(s: seq<byte>): (t: string)
    requires forall i :: 0 <= i < |s| ==> s[i] < 64
    ensures |t| == |s| && forall i :: 0 <= i < |s| ==> t[i] == Letter(s[i])
  {
    seq(|s|, i requires 0 <= i < |s| => Letter(s[i]))
  }

  // ---------- The text ----------

  /** The text of some bytes, group by group. */
  function EncodeText(b: seq<byte>): string {
    if b == [] then ""
    else if |b| == 1 then Letters(Sextets(b[0], 0, 0)[..2]) + "=="
    else if |b| == 2 then Letters(Sextets(b[0], b[1], 0)[..3]) + "="
    else Letters(Sextets(b[0], b[1], b[2])) + EncodeText(b[3..])
  }

  /** The letters before the first character that is none. */
  function Run(s: string): (r: string)
    ensures |r| <= |s| && r == s[..|r|] && (|r| < |s| ==> !IsBase64(s[|r|]))
    ensures forall i :: 0 <= i < |r| ==> IsBase64(r[i])
  {
    if s == "" || !IsBase64(s[0]) then "" else [s[0]] + Run(s[1..])
  }

  /** The bytes of some letters; one letter alone at the end is worth none. */
  function DecodeLetters(s: string): seq<byte> {
    if |s| <= 1 then []
    else if |s| == 2 then Triple(Find(s[0]), Find(s[1]), NOT_FOUND, NOT_FOUND)[..1]
    else if |s| == 3 then Triple(Find(s[0]), Find(s[1]), Find(s[2]), NOT_FOUND)[..2]
    else Triple(Find(s[0]), Find(s[1]), Find(s[2]), Find(s[3])) + DecodeLetters(s[4..])
  }

  lemma FindLetters(s: seq<byte>)
    requires forall i :: 0 <= i < |s| ==> s[i] < 64
    ensures forall i :: 0 <= i < |s| ==> Find(Letters(s)[i]) == s[i] && IsBase64(Letters(s)[i])
  {
    forall i | 0 <= i < |s|
      ensures Find(Letters(s)[i]) == s[i] && IsBase64(Letters(s)[i])
    {
      FindAlphabet(s[i]);
    }
  }

  lemma {:induction false} RunAppend(s: string, t: string)
    requires forall i :: 0 <= i < |s| ==> IsBase64(s[i])
    ensures Run(s + t) == s + Run(t)
  {
    if s == "" {
      assert s + t == t;
    } else {
      assert (s + t)[1..] == s[1..] + t;
      RunAppend(s[1..], t);
    }
  }

  lemma Padding()
    ensures Run("=") == "" && Run("==") == "" && Run("") == ""
  {
  }

  /** Decoding an encoding gives back the bytes. */
  lemma {:induction false} DecodeEncode(b: seq<byte>)
    ensures DecodeLetters(Run(EncodeText(b))) == b
  {
    hide Find, IsBase64, Letters, Sextets, Triple, Run;
    Padding();
    if b == [] {
    } else if |b| == 1 {
      TripleOfSextets(b[0], 0, 0);
      var s := Sextets(b[0], 0, 0)[..2];
      FindLetters(s);
      RunAppend(Letters(s), "==");
      assert Letters(s) + "" == Letters(s);
    } else if |b| == 2 {
      TripleOfSextets(b[0], b[1], 0);
      var s := Sextets(b[0], b[1], 0)[..3];
      FindLetters(s);
      RunAppend(Letters(s), "=");
      assert Letters(s) + "" == Letters(s);
    } else {
      TripleOfSextets(b[0], b[1], b[2]);
      var s := Sextets(b[0], b[1], b[2]);
      FindLetters(s);
      var rest := EncodeText(b[3..]);
      RunAppend(Letters(s), rest);
      DecodeEncode(b[3..]);
      assert (Letters(s) + Run(rest))[4..] == Run(rest);
      assert b == [b[0], b[1], b[2]] + b[3..];
    }
  }

  function Padded(n: nat): nat {
    (3 - n % 3) % 3
  }

  lemma ThreeMore(n: nat)
    ensures Padded(n + 3) == Padded(n) && (n + 3 + 2) / 3 == (n + 2) / 3 + 1
  {
  }

  /** Four characters for every three bytes begun: letters, and then at most two `=`. */
  lemma {:induction false} TextShape(b: seq<byte>)
    ensures var t, pad := EncodeText(b), Padded(|b|);
            && |t| == 4 * ((|b| + 2) / 3) && pad <= |t|
            && (forall i :: 0 <= i < |t| - pad ==> IsBase64(t[i]))
            && (forall i :: |t| - pad <= i < |t| ==> t[i] == '=')
  {
    hide Find, IsBase64, Letters, Sextets;
    if |b| == 1 {
      FindLetters(Sextets(b[0], 0, 0)[..2]);
    } else if |b| == 2 {
      FindLetters(Sextets(b[0], b[1], 0)[..3]);
    } else if |b| >= 3 {
      ThreeMore(|b| - 3);
      hide Padded;
      FindLetters(Sextets(b[0], b[1], b[2]));
      TextShape(b[3..]);
    }
  }

  // ---------- Encoding ----------

  lemma {:induction false} EncodeSplit(b: seq<byte>, k: nat)
    requires 3 * k <= |b|
    ensures EncodeText(b) == EncodeText(b[..3 * k]) + EncodeText(b[3 * k..])
  {
    hide EncodeText, Letters, Sextets;
    if k == 0 {
      EncodeNothing();
      assert b[0..] == b && b[..0] == [];
    } else {
      var p := b[..3 * k];
      EncodeSplit(b[3..], k - 1);
      assert p[3..] == b[3..][..3 * (k - 1)] && b[3..][3 * (k - 1)..] == b[3 * k..];
      var l := Letters(Sextets(b[0], b[1], b[2]));
      EncodeGroup(b);
      EncodeGroup(p);
      assert l + (EncodeText(p[3..]) + EncodeText(b[3 * k..])) == l + EncodeText(p[3..]) + EncodeText(b[3 * k..]);
    }
  }

  lemma EncodeGroup(b: seq<byte>)
    requires |b| >= 3
    ensures EncodeText(b) == Letters(Sextets(b[0], b[1], b[2])) + EncodeText(b[3..])
  {
    hide Letters, Sextets;
    assert b != [] && |b| != 1 && |b| != 2;
    assert EncodeText(b) == Letters(Sextets(b[0], b[1], b[2])) + EncodeText(b[3..]);
  }

  lemma EncodeThree(b: seq<byte>, k: nat)
    requires 3 * k + 3 <= |b|
    ensures EncodeText(b[..3 * k + 3]) ==
            EncodeText(b[..3 * k]) + Letters(Sextets(b[3 * k], b[3 * k + 1], b[3 * k + 2]))
  {
    hide Letters, Sextets;
    var p := b[..3 * k + 3];
    EncodeSplit(p, k);
    assert p[..3 * k] == b[..3 * k];
    var q := p[3 * k..];
    assert |q| == 3 && q[3..] == [] && q[0] == b[3 * k] && q[1] == b[3 * k + 1] && q[2] == b[3 * k + 2];
  }

  /** `base64_encode`: collects three bytes at a time. */
  method Encode(b: seq<byte>) returns (ret: string)
    ensures ret == EncodeText(b)
  {
    hide Letters, Sextets, EncodeText;
    ret := "";
    var three := new byte[3];
    var i, at: nat := 0, 0;
    ghost var k: nat := 0;
    EncodeNothing();
    while at < |b|
      invariant i < 3 && at == 3 * k + i <= |b| && ret == EncodeText(b[..3 * k])
      invariant forall j :: 0 <= j < i ==> three[j] == b[3 * k + j]
    {
      three[i] := b[at];
      i, at := i + 1, at + 1;
      if i == 3 {
        EncodeThree(b, k);
        ret := ret + Letters(Sextets(three[0], three[1], three[2]));
        i, k := 0, k + 1;
      }
    }
    EncodeSplit(b, k);
    EncodeLast(b[3 * k..]);
    EncodeNothing();
    assert i == 0 ==> ret + "" == ret;
    if i != 0 {
      for j := i to 3
        invariant forall m :: 0 <= m < i ==> three[m] == b[3 * k + m]
        invariant forall m :: i <= m < j ==> three[m] == 0
      {
        three[j] := 0;
      }
      var four := Sextets(three[0], three[1], three[2]);
      ret := ret + Letters(four[..i + 1]);
      if i == 1 {
        ret := ret + "==";
      } else {
        ret := ret + "=";
      }
    }
  }

  lemma EncodeNothing()
    ensures EncodeText([]) == ""
  {
  }

  lemma EncodeLast(b: seq<byte>)
    requires |b| < 3
    ensures |b| == 1 ==> EncodeText(b) == Letters(Sextets(b[0], 0, 0)[..2]) + "=="
    ensures |b| == 2 ==> EncodeText(b) == Letters(Sextets(b[0], b[1], 0)[..3]) + "="
  {
  }

  // ---------- Decoding ----------

  lemma {:induction false} DecodeSplit(s: string, k: nat)
    requires 4 * k <= |s|
    ensures DecodeLetters(s) == DecodeLetters(s[..4 * k]) + DecodeLetters(s[4 * k..])
  {
    hide DecodeLetters, Triple, Find;
    if k == 0 {
      DecodeLast("");
      assert s[0..] == s && s[..0] == "";
    } else {
      var p := s[..4 * k];
      DecodeSplit(s[4..], k - 1);
      assert p[4..] == s[4..][..4 * (k - 1)] && s[4..][4 * (k - 1)..] == s[4 * k..];
      var t := Triple(Find(s[0]), Find(s[1]), Find(s[2]), Find(s[3]));
      DecodeGroup(s);
      DecodeGroup(p);
      var u, v := DecodeLetters(p[4..]), DecodeLetters(s[4 * k..]);
      assert t + (u + v) == t + u + v;
    }
  }

  lemma DecodeGroup(s: string)
    requires |s| >= 4
    ensures DecodeLetters(s) == Triple(Find(s[0]), Find(s[1]), Find(s[2]), Find(s[3])) + DecodeLetters(s[4..])
  {
    hide Triple, Find;
  }

  lemma DecodeFour(s: string, k: nat)
    requires 4 * k + 4 <= |s|
    ensures DecodeLetters(s[..4 * k + 4]) ==
            DecodeLetters(s[..4 * k])
            + Triple(Find(s[4 * k]), Find(s[4 * k + 1]), Find(s[4 * k + 2]), Find(s[4 * k + 3]))
  {
    hide Triple, Find;
    var p := s[..4 * k + 4];
    DecodeSplit(p, k);
    assert p[..4 * k] == s[..4 * k];
    var q := p[4 * k..];
    assert |q| == 4 && q[4..] == [] && forall j :: 0 <= j < 4 ==> q[j] == s[4 * k + j];
  }

  lemma {:induction false} RunIs(s: string, n: nat)
    requires n <= |s| && (forall i :: 0 <= i < n ==> IsBase64(s[i])) && (n < |s| ==> !IsBase64(s[n]))
    ensures Run(s) == s[..n]
  {
    hide IsBase64;
    if n > 0 {
      RunIs(s[1..], n - 1);
      assert s[..n] == [s[0]] + s[1..][..n - 1];
    }
  }

  lemma DecodeLast(s: string)
    requires |s| < 4
    ensures |s| <= 1 ==> DecodeLetters(s) == []
    ensures |s| == 2 ==> DecodeLetters(s) == Triple(Find(s[0]), Find(s[1]), NOT_FOUND, NOT_FOUND)[..1]
    ensures |s| == 3 ==> DecodeLetters(s) == Triple(Find(s[0]), Find(s[1]), Find(s[2]), NOT_FOUND)[..2]
  {
  }

  lemma ZeroIsNotFound()
    ensures Find(0 as char) == NOT_FOUND
  {
  }

  /** `base64_decode`: collects four letters at a time, up to the first character that is none. */
  method Decode(text: string) returns (ret: seq<byte>)
    ensures ret == DecodeLetters(Run(text))
  {
    hide Triple, Find, IsBase64, DecodeLetters, Run;
    ret := [];
    var four := new char[4];
    var i, at: nat := 0, 0;
    ghost var k: nat := 0;
    DecodeLast("");
    while at < |text| && text[at] != '=' && IsBase64(text[at])
      invariant i < 4 && at == 4 * k + i <= |text| && ret == DecodeLetters(text[..4 * k])
      invariant forall j :: 0 <= j < i ==> four[j] == text[4 * k + j]
      invariant forall j :: 0 <= j < at ==> IsBase64(text[j])
    {
      four[i] := text[at];
      i, at := i + 1, at + 1;
      if i == 4 {
        DecodeFour(text, k);
        ret := ret + Triple(Find(four[0]), Find(four[1]), Find(four[2]), Find(four[3]));
        i, k := 0, k + 1;
      }
    }
    FillerIsNoLetter();
    RunIs(text, at);
    var run := text[..at];
    DecodeSplit(run, k);
    assert run[..4 * k] == text[..4 * k];
    ghost var last := run[4 * k..];
    assert i == 0 ==> last == [] && ret + [] == ret;
    if i != 0 {
      for j := i to 4
        invariant forall m :: 0 <= m < i ==> four[m] == last[m]
        invariant forall m :: i <= m < j ==> four[m] == 0 as char
      {
        four[j] := 0 as char;
      }
      LastGroup(last, four[..]);
      ret := ret + Triple(Find(four[0]), Find(four[1]), Find(four[2]), Find(four[3]))[..i - 1];
    }
  }

  /** One to three letters at the end, filled up with zero characters. */
  lemma LastGroup(last: string, f: string)
    requires 0 < |last| < 4 && |f| == 4 && forall j :: 0 <= j < 4 ==> f[j] == if j < |last| then last[j] else 0 as char
    ensures DecodeLetters(last) == Triple(Find(f[0]), Find(f[1]), Find(f[2]), Find(f[3]))[..|last| - 1]
  {
    hide Triple, Find, DecodeLetters;
    DecodeLast(last);
    ZeroIsNotFound();
  }

  lemma FillerIsNoLetter()
    ensures !IsBase64('=')
  {
  }

  // ---------- The letters as digits ----------

  lemma LetterIs(i: nat, c: char)
    requires i < 64 && Find(c) == i
    ensures Letter(i) == c
  {
    FindAlphabet(i);
    SamePlace(ALPHABET[i], c);
  }

  /** The places of the alphabet: upper case, lower case, digits, `+` and `/`. */
  lemma AlphabetPlaces(i: nat)
    requires i < 64
    ensures Letter(i) as int ==
            if i < 26 then 65 + i
            else if i < 52 then 97 + (i - 26)
            else if i < 62 then 48 + (i - 52) else if i == 62 then 43 else 47
  {
    var c := if i < 26 then 'A' + i as char
             else if i < 52 then 'a' + (i - 26) as char
             else if i < 62 then '0' + (i - 52) as char else if i == 62 then '+' else '/';
    LetterIs(i, c);
  }

  /** Three bytes as one number are their sextets as one number, the highest first. */
  lemma SextetsAreDigits(a: byte, b: byte, c: byte)
    ensures var s := Sextets(a, b, c);
            && 262144 * s[0] as int + 4096 * s[1] as int + 64 * s[2] as int + s[3] as int
               == 65536 * a as int + 256 * b as int + c as int
  {
  }

  /** The digits of a letter of a text. */
  function DigitAt(t: string, i: nat): nat
    requires i < |t|
  {
    Find(t[i])
  }

  /** Every three bytes of a text, read as one number, are four letters read as digits, the highest first. */
  lemma GroupDigits(b: seq<byte>, k: nat)
    requires 3 * k + 3 <= |b|
    ensures var t := EncodeText(b);
            && 4 * k + 4 <= |t|
            && 262144 * DigitAt(t, 4 * k) + 4096 * DigitAt(t, 4 * k + 1) + 64 * DigitAt(t, 4 * k + 2)
               + DigitAt(t, 4 * k + 3)
               == 65536 * b[3 * k] as int + 256 * b[3 * k + 1] as int + b[3 * k + 2] as int
  {
    hide EncodeText, Letters, Sextets, Find, IsBase64, Padded;
    EncodeSplit(b, k);
    TextLength(b[..3 * k], k);
    var rest := b[3 * k..];
    EncodeGroup(rest);
    var s := Sextets(rest[0], rest[1], rest[2]);
    FindLetters(s);
    SextetsAreDigits(rest[0], rest[1], rest[2]);
    TakeFour(EncodeText(b), EncodeText(b[..3 * k]), Letters(s), EncodeText(rest[3..]), k);
  }

  lemma TakeFour(t: string, head: string, four: string, tail: string, k: nat)
    requires t == head + (four + tail) && |head| == 4 * k && |four| == 4
    ensures 4 * k + 4 <= |t| && t[4 * k] == four[0] && t[4 * k + 1] == four[1]
    ensures t[4 * k + 2] == four[2] && t[4 * k + 3] == four[3]
  {
  }

  lemma TextLength(b: seq<byte>, k: nat)
    requires |b| == 3 * k
    ensures |EncodeText(b)| == 4 * k
  {
    TextShape(b);
    hide EncodeText;
  }

  /** One byte left over is two letters with four zero bits behind it; two are three with two. */
  lemma LastDigits(b: seq<byte>)
    ensures |b| == 1 ==> var t := EncodeText(b);
                         |t| == 4 && t[2..] == "==" && 64 * DigitAt(t, 0) + DigitAt(t, 1) == 16 * b[0] as int
    ensures |b| == 2 ==> var t := EncodeText(b);
                         && |t| == 4 && t[3..] == "="
                         && 4096 * DigitAt(t, 0) + 64 * DigitAt(t, 1) + DigitAt(t, 2)
                            == 4 * (256 * b[0] as int + b[1] as int)
  {
    hide Letters, Find;
    if |b| == 1 {
      var s := Sextets(b[0], 0, 0)[..2];
      FindLetters(s);
      SextetsAreDigits(b[0], 0, 0);
    } else if |b| == 2 {
      var s := Sextets(b[0], b[1], 0)[..3];
      FindLetters(s);
      SextetsAreDigits(b[0], b[1], 0);
    }
  }
}
