/** The wildcard matcher `wildcmp` of `BaseLayer/DelayedDirectoryChangeHandler.cpp`. */
module Wildcard {

  /** A character code; 0 terminates a string and does not occur inside it. */
  type code = n: nat | n > 0 witness 1

  const STAR: code := 42
  const ANY: code := 63

  /**
   Character classes: characters that fold to the same value match. The terminator folds to
   a value of its own, so comparing at the end of the pattern fails.
  */
  ghost predicate Separates(fold: nat -> int) {
    forall c: code :: fold(c) != fold(0)
  }

  predicate Fits(fold: nat -> int, p: code, c: code) {
    p == ANY || fold(p) == fold(c)
  }

  /** What a pattern means: `*` is any string, `?` any character. */
  predicate Glob(fold: nat -> int, p: seq<code>, s: seq<code>)
    decreases |p| + |s|
  {
    if p == [] then s == []
    else if p[0] == STAR then Glob(fold, p[1..], s) || (s != [] && Glob(fold, p, s[1..]))
    else s != [] && Fits(fold, p[0], s[0]) && Glob(fold, p[1..], s[1..])
  }

  /** Some suffix of `s` from `j` on matches `p`. */
  predicate GlobFrom(fold: nat -> int, p: seq<code>, s: seq<code>, j: nat)
    requires j <= |s|
  {
    exists k :: j <= k <= |s| && Glob(fold, p, s[k..])
  }

  lemma {:induction false} StarIsAnySuffix(fold: nat -> int, p: seq<code>, s: seq<code>, j: nat)
    requires p != [] && p[0] == STAR && j <= |s|
    ensures Glob(fold, p, s[j..]) == GlobFrom(fold, p[1..], s, j)
    decreases |s| - j
  {
    if j < |s| {
      assert s[j..][1..] == s[j + 1..];
      StarIsAnySuffix(fold, p, s, j + 1);
    }
  }

  /** `q` has no star and matches the characters of `s` from `j` on, one each. */
  predicate Aligned(fold: nat -> int, q: seq<code>, s: seq<code>, j: nat) {
    && j + |q| <= |s|
    && forall i :: 0 <= i < |q| ==> q[i] != STAR && Fits(fold, q[i], s[j + i])
  }

  /** A pattern that starts with characters other than stars needs as many characters. */
  lemma {:induction false} StarFreePrefix(fold: nat -> int, q: seq<code>, p: seq<code>, s: seq<code>)
    requires forall i :: 0 <= i < |q| ==> q[i] != STAR
    ensures Glob(fold, q + p, s) <==> Aligned(fold, q, s, 0) && Glob(fold, p, s[|q|..])
  {
    if q == [] {
      assert q + p == p && s[0..] == s;
    } else {
      assert (q + p)[1..] == q[1..] + p;
      if s != [] {
        StarFreePrefix(fold, q[1..], p, s[1..]);
        assert |q| <= |s| ==> s[1..][|q| - 1..] == s[|q|..];
        if Aligned(fold, q, s, 0) {
          assert forall i :: 0 <= i < |q| - 1 ==> q[1..][i] == q[i + 1] && s[1..][i] == s[i + 1];
        }
        if Aligned(fold, q[1..], s[1..], 0) && Fits(fold, q[0], s[0]) {
          assert forall i :: 0 < i < |q| ==> q[i] == q[1..][i - 1] && s[i] == s[1..][i - 1];
        }
      }
    }
  }

  /**
   Greedy commitment: once the part of the pattern before a star has matched at `j`, no later
   start for it needs to be tried again.
  */
  lemma Commit(fold: nat -> int, q: seq<code>, p: seq<code>, s: seq<code>, j: nat)
    requires p != [] && p[0] == STAR && Aligned(fold, q, s, j)
    ensures GlobFrom(fold, q + p, s, j) == GlobFrom(fold, p[1..], s, j + |q|)
  {
    hide Glob;
    var e := j + |q|;
    if GlobFrom(fold, q + p, s, j) {
      var k :| j <= k <= |s| && Glob(fold, q + p, s[k..]);
      NoNeedToTryLater(fold, q, p, s, e, k);
    }
    if GlobFrom(fold, p[1..], s, e) {
      StarIsAnySuffix(fold, p, s, e);
      StarFreePrefix(fold, q, p, s[j..]);
      assert s[j..][|q|..] == s[e..];
      assert Aligned(fold, q, s[j..], 0);
    }
  }

  /** What matches after a later start matches after the star as well. */
  lemma NoNeedToTryLater(fold: nat -> int, q: seq<code>, p: seq<code>, s: seq<code>, e: nat, k: nat)
    requires p != [] && p[0] == STAR && k <= |s| && e <= |s| && e <= k + |q| && Glob(fold, q + p, s[k..])
    requires forall i :: 0 <= i < |q| ==> q[i] != STAR
    ensures GlobFrom(fold, p[1..], s, e)
  {
    hide Glob;
    StarFreePrefix(fold, q, p, s[k..]);
    assert s[k..][|q|..] == s[k + |q|..];
    StarIsAnySuffix(fold, p, s, k + |q|);
  }

  /** A failed attempt at `j` leaves the later ones. */
  lemma Skip(fold: nat -> int, p: seq<code>, s: seq<code>, j: nat)
    requires j < |s| && !Glob(fold, p, s[j..])
    ensures GlobFrom(fold, p, s, j) == GlobFrom(fold, p, s, j + 1)
  {
  }

  /** If an attempt has used up the string, only it can still succeed. */
  lemma LastAttempt(fold: nat -> int, q: seq<code>, p: seq<code>, s: seq<code>, j: nat)
    requires Aligned(fold, q, s, j) && j + |q| == |s|
    ensures GlobFrom(fold, q + p, s, j) == Glob(fold, p, [])
  {
    StarFreePrefix(fold, q, p, s[j..]);
    assert s[j..][|q|..] == [];
    assert Glob(fold, p, []) ==> Aligned(fold, q, s[j..], 0);
    if GlobFrom(fold, q + p, s, j) {
      var k :| j <= k <= |s| && Glob(fold, q + p, s[k..]);
      StarFreePrefix(fold, q, p, s[k..]);
      assert k == j;
    }
  }

  /** The empty string matches only stars. */
  lemma {:induction false} EmptyMatchesStars(fold: nat -> int, p: seq<code>)
    ensures Glob(fold, p, []) <==> forall i :: 0 <= i < |p| ==> p[i] == STAR
  {
    if p != [] {
      EmptyMatchesStars(fold, p[1..]);
      if forall i :: 0 <= i < |p| ==> p[i] == STAR {
        assert forall i :: 0 <= i < |p| - 1 ==> p[1..][i] == p[i + 1];
      }
      if p[0] == STAR && forall i :: 0 <= i < |p| - 1 ==> p[1..][i] == STAR {
        assert forall i :: 0 < i < |p| ==> p[i] == p[1..][i - 1];
      }
    }
  }

  /** The character at `i`, or the terminator. */
  function At(s: seq<code>, i: nat): nat
    requires i <= |s|
  {
    if i < |s| then s[i] else 0
  }

  /** Skips stars and says whether that ends the pattern. */
  method OnlyStars(fold: nat -> int, p: seq<code>, wild: nat) returns (r: bool)
    requires wild <= |p|
    ensures r == Glob(fold, p[wild..], [])
  {
    EmptyMatchesStars(fold, p[wild..]);
    var w := wild;
    while At(p, w) == STAR
      invariant wild <= w <= |p| && forall i :: wild <= i < w ==> p[i] == STAR
      decreases |p| - w
    {
      w := w + 1;
    }
    assert w < |p| ==> p[wild..][w - wild] != STAR;
    r := At(p, w) == 0;
  }

  /**
   The search goes by the last star seen: `mp` is the place after it in the pattern, -1 while
   there is none, and the current attempt starts at `cp - 1` in the string.
  */
  ghost predicate Searching(fold: nat -> int, s: seq<code>, p: seq<code>, wild: nat, str: nat, mp: int, cp: nat) {
    && wild <= |p| && str <= |s| && -1 <= mp
    && (mp == -1 ==>
          && str < |s| && wild < |p| && p[wild] == STAR
          && Glob(fold, p, s) == Glob(fold, p[wild..], s[str..]))
    && (mp >= 0 ==>
          && mp <= wild && mp < |p| && 0 < cp <= |s| + 1 && str == cp - 1 + (wild - mp)
          && Aligned(fold, p[mp..wild], s, cp - 1)
          && Glob(fold, p, s) == GlobFrom(fold, p[mp..], s, cp - 1))
  }

  lemma Bounds(fold: nat -> int, s: seq<code>, p: seq<code>, wild: nat, str: nat, mp: int, cp: nat)
    requires Searching(fold, s, p, wild, str, mp, cp)
    ensures mp == -1 ==> wild < |p| && p[wild] == STAR
    ensures mp >= 0 ==> mp < |p| && mp <= wild && cp <= |s| + 1
  {
  }

  /** At a star the search starts over after it, from here. */
  lemma MeetStar(fold: nat -> int, s: seq<code>, p: seq<code>, wild: nat, str: nat, mp: int, cp: nat)
    requires Searching(fold, s, p, wild, str, mp, cp) && wild < |p| && p[wild] == STAR
    ensures Glob(fold, p, s) == GlobFrom(fold, p[wild + 1..], s, str)
    ensures wild + 1 == |p| ==> Glob(fold, p, s)
    ensures wild + 1 < |p| ==> Searching(fold, s, p, wild + 1, str, wild + 1, str + 1)
  {
    assert p[wild..][1..] == p[wild + 1..];
    if mp == -1 {
      StarIsAnySuffix(fold, p[wild..], s, str);
    } else {
      assert p[mp..] == p[mp..wild] + p[wild..];
      Commit(fold, p[mp..wild], p[wild..], s, cp - 1);
    }
    if wild + 1 == |p| {
      assert Glob(fold, [], s[|s|..]);
      assert p[wild + 1..] == [];
      assert GlobFrom(fold, p[wild + 1..], s, str);
    }
  }

  lemma MeetMatch(fold: nat -> int, s: seq<code>, p: seq<code>, wild: nat, str: nat, mp: int, cp: nat)
    requires Searching(fold, s, p, wild, str, mp, cp) && str < |s| && wild < |p| && p[wild] != STAR
    requires Fits(fold, p[wild], s[str])
    ensures Searching(fold, s, p, wild + 1, str + 1, mp, cp)
  {
    assert p[mp..wild + 1] == p[mp..wild] + [p[wild]];
  }

  lemma MeetMismatch(fold: nat -> int, s: seq<code>, p: seq<code>, wild: nat, str: nat, mp: int, cp: nat)
    requires Searching(fold, s, p, wild, str, mp, cp) && str < |s|
    requires wild < |p| ==> p[wild] != STAR && !Fits(fold, p[wild], s[str])
    ensures mp >= 0 && cp <= |s| && Searching(fold, s, p, mp, cp, mp, cp + 1)
  {
    var q, rest := p[mp..wild], p[wild..];
    assert p[mp..] == q + rest;
    StarFreePrefix(fold, q, rest, s[cp - 1..]);
    assert s[cp - 1..][|q|..] == s[str..];
    Skip(fold, p[mp..], s, cp - 1);
    assert p[mp..mp] == [];
  }

  lemma MeetEnd(fold: nat -> int, s: seq<code>, p: seq<code>, wild: nat, str: nat, mp: int, cp: nat)
    requires Searching(fold, s, p, wild, str, mp, cp) && str == |s|
    ensures Glob(fold, p, s) == Glob(fold, p[wild..], [])
  {
    assert p[mp..] == p[mp..wild] + p[wild..];
    LastAttempt(fold, p[mp..wild], p[wild..], s, cp - 1);
  }

  lemma NoFit(fold: nat -> int, p: seq<code>, s: seq<code>)
    requires s != [] && (p == [] || (p[0] != STAR && !Fits(fold, p[0], s[0])))
    ensures !Glob(fold, p, s)
  {
  }

  /** Matches `s` against `p`, going back only to the last star; no place saved there is used before it is set. */
  method WildCmp(fold: nat -> int, s: seq<code>, p: seq<code>) returns (r: bool)
    requires Separates(fold)
    ensures r == Glob(fold, p, s)
  {
    hide Glob, GlobFrom;
    var mp: int, cp: nat := -1, 0;
    var wild: nat, str: nat := 0, 0;
    while At(s, str) != 0 && At(p, wild) != STAR
      invariant wild <= |p| && str <= |s| && wild == str
      invariant Aligned(fold, p[..wild], s, 0)
      decreases |s| - str
    {
      if fold(At(p, wild)) != fold(At(s, str)) && At(p, wild) != ANY {
        assert p[..wild] + p[wild..] == p;
        StarFreePrefix(fold, p[..wild], p[wild..], s);
        NoFit(fold, p[wild..], s[wild..]);
        return false;
      }
      assert p[..wild + 1] == p[..wild] + [p[wild]];
      wild := wild + 1;
      str := str + 1;
    }
    assert p[..wild] + p[wild..] == p;
    StarFreePrefix(fold, p[..wild], p[wild..], s);
    assert str < |s| ==> Searching(fold, s, p, wild, str, mp, cp);
    assert str == |s| ==> s[str..] == [];
    hide Aligned, Searching;
    while At(s, str) != 0
      invariant wild <= |p| && str <= |s|
      invariant -1 <= mp && mp <= wild && (mp >= 0 ==> mp < |p| && cp <= |s| + 1)
      invariant || Searching(fold, s, p, wild, str, mp, cp)
                || (str == |s| && Glob(fold, p, s) == Glob(fold, p[wild..], []))
      decreases |p| - mp, |s| + 1 - cp, |s| - str
    {
      Bounds(fold, s, p, wild, str, mp, cp);
      if At(p, wild) == STAR {
        MeetStar(fold, s, p, wild, str, mp, cp);
        wild := wild + 1;
        if At(p, wild) == 0 {
          return true;
        }
        mp := wild;
        cp := str + 1;
      } else if fold(At(p, wild)) == fold(At(s, str)) || At(p, wild) == ANY {
        MeetMatch(fold, s, p, wild, str, mp, cp);
        wild := wild + 1;
        str := str + 1;
      } else {
        MeetMismatch(fold, s, p, wild, str, mp, cp);
        wild := mp;
        str := cp;
        cp := cp + 1;
      }
    }
    if str == |s| && Searching(fold, s, p, wild, str, mp, cp) {
      MeetEnd(fold, s, p, wild, str, mp, cp);
    }
    r := OnlyStars(fold, p, wild);
  }

  // ---------- The relation, told by character codes ----------

  /** What `*`, `?` and any other character mean in front of a pattern. */
  lemma GlobOfFirst(fold: nat -> int, c: code, p: seq<code>, s: seq<code>)
    ensures c == 42 ==> (Glob(fold, [c] + p, s) <==> exists k :: 0 <= k <= |s| && Glob(fold, p, s[k..]))
    ensures c == 63 ==> (Glob(fold, [c] + p, s) <==> s != [] && Glob(fold, p, s[1..]))
    ensures c != 42 && c != 63 ==>
              (Glob(fold, [c] + p, s) <==> s != [] && fold(c) == fold(s[0]) && Glob(fold, p, s[1..]))
  {
    var q := [c] + p;
    assert q[1..] == p && s[0..] == s;
    if c == 42 {
      StarIsAnySuffix(fold, q, s, 0);
    }
  }

  /** The empty pattern matches the empty string only. */
  lemma GlobOfNothing(fold: nat -> int, s: seq<code>)
    ensures Glob(fold, [], s) <==> s == []
  {
  }

  /** Two texts of characters that fold alike match the same patterns. */
  lemma {:induction false} FoldedAlike(fold: nat -> int, p: seq<code>, s: seq<code>, t: seq<code>)
    requires |s| == |t| && forall i :: 0 <= i < |s| ==> fold(s[i]) == fold(t[i])
    ensures Glob(fold, p, s) == Glob(fold, p, t)
    decreases |p| + |s|
  {
    if p != [] {
      if p[0] == STAR {
        FoldedAlike(fold, p[1..], s, t);
      }
      if s != [] {
        FoldedAlike(fold, if p[0] == STAR then p else p[1..], s[1..], t[1..]);
      }
    }
  }
}
