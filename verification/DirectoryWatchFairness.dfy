/** Every wait that is not doomed is signalled in every fair run that goes on for ever. */
module DirectoryWatchFairness {
  import opened WatchTable
  import opened DirectoryWatch
  import opened DirectoryWatchSafety
  import opened DirectoryWatchLiveness

  type Run = nat -> State
  type Labels = nat -> Label

  ghost predicate IsEndless(run: Run, ls: Labels) {
    forall i: nat :: Next(run(i), ls(i), run(i + 1))
  }

  /** No step uses a watch that is gone. */
  ghost predicate UsesNothingGone(run: Run, ls: Labels) {
    forall i: nat :: Proper(run(i), ls(i))
  }

  ghost predicate CanMove(s: State, g: Agent, id: Id) {
    exists l, s' :: Next(s, l, s') && By(s, l, g, id)
  }

  ghost predicate Moves(run: Run, ls: Labels, g: Agent, id: Id, m: nat) {
    By(run(m), ls(m), g, id) || !CanMove(run(m), g, id)
  }

  /**
   The worker, the thread that stops a watch, and the read of the watch on a closed handle each move
   again, or cannot. Nothing is asked of a read on an open handle: the directory need not change.
  */
  ghost predicate IsFair(run: Run, ls: Labels, id: Id) {
    forall n: nat, g: Agent :: MovesAgain(run, ls, g, id, n)
  }

  ghost predicate MovesAgain(run: Run, ls: Labels, g: Agent, id: Id, n: nat) {
    exists m: nat :: m >= n && Moves(run, ls, g, id, m)
  }

  predicate WaitsAt(s: State, id: Id) {
    id in s.watches && Waits(s.watches[id])
  }

  predicate SignalledAt(s: State, id: Id) {
    id in s.watches && Signalled(s.watches[id])
  }

  predicate DoomedAt(s: State, id: Id) {
    id in s.watches && Doomed(s, id)
  }

  /** The watch is waited for from `n` to `m`. */
  ghost predicate WaitsFromTo(run: Run, id: Id, n: nat, m: nat) {
    forall k: nat :: n <= k <= m ==> WaitsAt(run(k), id)
  }

  /** The wait that began at `n` becomes doomed. */
  ghost predicate GetsDoomed(run: Run, id: Id, n: nat) {
    exists m: nat :: m >= n && WaitsFromTo(run, id, n, m) && DoomedAt(run(m), id)
  }

  ghost predicate GetsSignalled(run: Run, id: Id, n: nat) {
    exists m: nat :: m >= n && SignalledAt(run(m), id)
  }

  lemma {:induction false} InvAt(run: Run, ls: Labels, n: nat)
    requires IsEndless(run, ls) && Init(run(0))
    ensures Inv(run(n))
  {
    hide Inv, Next, Init;
    if n == 0 {
      InitHolds(run(0));
    } else {
      InvAt(run, ls, n - 1);
      assert Next(run(n - 1), ls(n - 1), run(n - 1 + 1));
      NextKeeps(run(n - 1), ls(n - 1), run(n));
    }
  }

  /** A step of a wait that does not become doomed. */
  lemma OneStep(run: Run, ls: Labels, id: Id, n: nat)
    requires IsEndless(run, ls) && Init(run(0)) && WaitsAt(run(n), id) && !GetsDoomed(run, id, n)
    ensures !DoomedAt(run(n), id)
    ensures || SignalledAt(run(n + 1), id)
            || (WaitsAt(run(n + 1), id) && !GetsDoomed(run, id, n + 1)
                && (Nearer(run(n), run(n + 1), id)
                    || (Same(run(n), run(n + 1), id) && Helper(run(n + 1), id) == Helper(run(n), id)
                        && !By(run(n), ls(n), Helper(run(n), id), id))))
  {
    hide Inv, Next, Init, Doomed, Waits, Signalled, Nearer, Same, Helper, By;
    InvAt(run, ls, n);
    var s, l, s' := run(n), ls(n), run(n + 1);
    assert Next(s, l, s');
    assert WaitsFromTo(run, id, n, n);
    WaitMoves(s, l, s', id);
    if WaitsAt(s', id) {
      StillNotDoomed(run, id, n);
    }
    if !DoomedAt(s', id) {
      NotFarther(s, l, s', id);
    }
  }

  /** If the wait is over after a step, its event was signalled. */
  lemma WaitMoves(s: State, l: Label, s': State, id: Id)
    requires Inv(s) && Next(s, l, s') && WaitsAt(s, id)
    ensures id in s'.watches && (WaitsAt(s', id) || SignalledAt(s', id))
  {
    hide Inv, Next, Rank, Waits, Signalled;
    if l.id == id {
      OwnStep(s, l, s', id);
    } else {
      RankStays(s, l, s', id);
      ViewHasWatch(s, id);
      ViewHasWatch(s', id);
    }
  }

  lemma StillNotDoomed(run: Run, id: Id, n: nat)
    requires WaitsAt(run(n), id) && WaitsAt(run(n + 1), id) && !GetsDoomed(run, id, n)
    ensures !GetsDoomed(run, id, n + 1) && !DoomedAt(run(n + 1), id)
  {
    hide Waits, Doomed, WaitsAt, DoomedAt;
    assert WaitsFromTo(run, id, n, n + 1);
    forall m: nat | m >= n + 1 && WaitsFromTo(run, id, n + 1, m)
      ensures !DoomedAt(run(m), id)
    {
      assert WaitsFromTo(run, id, n, m);
    }
  }

  /**
   While nothing brings the wait nearer to its end, the agent whose step it needs stays the same
   and does not move; so it moves, or something else helps, as soon as that agent is due.
  */
  lemma {:induction false} ComesNearer(run: Run, ls: Labels, id: Id, n: nat, m: nat) returns (k: nat)
    requires IsEndless(run, ls) && Init(run(0)) && WaitsAt(run(n), id) && !GetsDoomed(run, id, n)
    requires n <= m && Moves(run, ls, Helper(run(n), id), id, m)
    ensures n <= k
    ensures || SignalledAt(run(k), id)
            || (WaitsAt(run(k), id) && !GetsDoomed(run, id, k) && Nearer(run(n), run(k), id))
    decreases m - n
  {
    hide Inv, Next, Init, Doomed, Waits, Signalled, Nearer, Same, Helper, By;
    HelperMayMove(run, ls, id, n);
    OneStep(run, ls, id, n);
    k := n + 1;
    if !SignalledAt(run(k), id) && !Nearer(run(n), run(k), id) {
      k := ComesNearer(run, ls, id, n + 1, m);
      if !SignalledAt(run(k), id) {
        SameThenNearer(run(n), run(n + 1), run(k), id);
      }
    }
  }

  lemma HelperMayMove(run: Run, ls: Labels, id: Id, n: nat)
    requires IsEndless(run, ls) && Init(run(0)) && WaitsAt(run(n), id) && !GetsDoomed(run, id, n)
    ensures CanMove(run(n), Helper(run(n), id), id)
  {
    hide Inv, Next, Init, Doomed, Waits, Helper, By;
    InvAt(run, ls, n);
    assert WaitsFromTo(run, id, n, n);
    var l, s' := HelperCanMove(run(n), id);
  }

  lemma SameThenNearer(s: State, s': State, s'': State, id: Id)
    requires id in s.watches && id in s'.watches && id in s''.watches
    requires Same(s, s', id) && Nearer(s', s'', id)
    ensures Nearer(s, s'', id)
  {
    hide Rank, Position, Work, ViewOf;
  }

  lemma {:induction false} FairRunEnds(run: Run, ls: Labels, id: Id, n: nat)
    requires IsEndless(run, ls) && Init(run(0)) && IsFair(run, ls, id)
    requires WaitsAt(run(n), id) && !GetsDoomed(run, id, n)
    ensures GetsSignalled(run, id, n)
    decreases Rank(ViewOf(run(n), id)), Position(run(n), id), Work(run(n), id)
  {
    hide Inv, Next, Init, Doomed, Waits, Signalled, Rank, Position, Work, ViewOf, Helper, By;
    assert MovesAgain(run, ls, Helper(run(n), id), id, n);
    var m: nat :| m >= n && Moves(run, ls, Helper(run(n), id), id, m);
    var k := ComesNearer(run, ls, id, n, m);
    if !SignalledAt(run(k), id) {
      FairRunEnds(run, ls, id, k);
    }
  }

  /** A wait that becomes doomed is not signalled before, nor ever after. */
  lemma {:induction false} NeverSignalled(run: Run, ls: Labels, id: Id, m: nat, k: nat)
    requires IsEndless(run, ls) && Init(run(0)) && UsesNothingGone(run, ls)
    requires m <= k && WaitsAt(run(m), id) && DoomedAt(run(m), id)
    ensures WaitsAt(run(k), id) && DoomedAt(run(k), id)
  {
    hide Inv, Next, Init, Doomed, Waits, Proper;
    if m < k {
      NeverSignalled(run, ls, id, m, k - 1);
      InvAt(run, ls, k - 1);
      assert Next(run(k - 1), ls(k - 1), run(k - 1 + 1)) && Proper(run(k - 1), ls(k - 1));
      DoomedStays(run(k - 1), ls(k - 1), run(k), id);
    }
  }

  /**
   In every run that goes on for ever, is fair and uses no watch that is gone: a start or a stop
   that is waited for is signalled if and only if the wait does not become doomed.
  */
  lemma SignalledIffNotDoomed(run: Run, ls: Labels, id: Id, n: nat)
    requires IsEndless(run, ls) && Init(run(0)) && IsFair(run, ls, id) && UsesNothingGone(run, ls)
    requires WaitsAt(run(n), id)
    ensures GetsSignalled(run, id, n) <==> !GetsDoomed(run, id, n)
  {
    hide Next, Init, Doomed, Waits, Signalled, IsEndless, IsFair, UsesNothingGone, WaitsAt, DoomedAt, SignalledAt;
    if GetsDoomed(run, id, n) {
      var m: nat :| m >= n && WaitsFromTo(run, id, n, m) && DoomedAt(run(m), id);
      forall k: nat | k >= n
        ensures !SignalledAt(run(k), id)
      {
        if k >= m {
          NeverSignalled(run, ls, id, m, k);
        }
        NotWhileWaiting(run(k), id);
      }
    } else {
      FairRunEnds(run, ls, id, n);
    }
  }

  lemma NotWhileWaiting(s: State, id: Id)
    ensures !(WaitsAt(s, id) && SignalledAt(s, id))
  {
  }
}
