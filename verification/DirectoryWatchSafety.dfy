/** When nothing refers to a watch that is over any more, and when the worker still does. */
module DirectoryWatchSafety {
  import opened Optional
  import opened WatchTable
  import opened DirectoryWatch

  /** The start event is signalled, and the start has not returned the error field yet. */
  predicate Returning(w: Watch) {
    (w.caller.WaitStart? && w.event) || w.caller.StartSeen? || w.caller.StartReset?
  }

  /** The watch is deleted, or a new one at its address: the error the worker has found is not in its field. */
  predicate Gone(w: Watch) {
    w.caller.Deleted? || !w.error
  }

  /**
   The worker holds a watch whose start was reported as failed, or the address of a deleted
   one, which a new watch may have by now.
  */
  predicate Stale(v: View) {
    Failing(v.phase) && (v.w.caller.StartFailed? || Gone(v.w))
  }

  /** A step that does not use a watch that is gone. */
  predicate Proper(s: State, l: Label) {
    l.Act? && l.a.Report? && l.id in s.watches ==> !Gone(s.watches[l.id])
  }

  predicate HeldStale(s: State, id: Id) {
    id in s.watches && Stale(ViewOf(s, id))
  }

  /** The worker has not given up the watch since step `i`. */
  ghost predicate NotUnwatched(ls: seq<Label>, id: Id, i: nat) {
    forall k :: i < k < |ls| ==> ls[k] != Act(id, Unwatch(true)) && ls[k] != Act(id, Unwatch(false))
  }

  /**
   A re-issued read of the watch failed at step `i` before the start had returned, the start
   returned at step `j`, and the worker is not done with the failure yet.
  */
  ghost predicate RacedAt(ss: seq<State>, ls: seq<Label>, id: Id, i: nat, j: nat)
    requires |ss| == |ls| + 1
  {
    && i < j < |ls| && ls[i] == Act(id, Reissue(false)) && ls[j] == Act(id, ReadError)
    && id in ss[i].watches && Returning(ss[i].watches[id]) && NotUnwatched(ls, id, i)
  }

  ghost predicate Raced(ss: seq<State>, ls: seq<Label>, id: Id)
    requires |ss| == |ls| + 1
  {
    exists i: nat, j: nat :: RacedAt(ss, ls, id, i, j)
  }

  // ---------- Whatever is stale has come from the race ----------

  /** The error was found by the worker, and the start has not returned it. */
  predicate Untold(v: View) {
    Failing(v.phase) && v.w.error && Returning(v.w)
  }

  /** Where a step that leaves the worker with a failed read has come from. */
  lemma FailingBefore(v: View, a: Action, v': View)
    requires ViewInv(v) && ViewStep(v, a, v') && Failing(v'.phase) && a != Reissue(false)
    ensures Failing(v.phase) && !a.Unwatch?
    ensures Stale(v') ==> Stale(v) || (a.ReadError? && Untold(v))
    ensures Untold(v') ==> Untold(v)
  {
  }

  lemma FailsNow(v: View, v': View)
    requires ViewInv(v) && ViewStep(v, Reissue(false), v')
    ensures !Stale(v') && (Untold(v') ==> Returning(v.w))
  {
  }

  lemma CreatedStale(s: State, id: Id, s': State)
    requires Inv(s) && CreateStep(s, id, s') && Failing(ViewOf(s', id).phase)
    ensures id in s.watches && Stale(ViewOf(s, id)) && !Untold(ViewOf(s', id))
  {
  }

  lemma StepBefore(s: State, l: Label, s': State, id: Id)
    requires Inv(s) && Next(s, l, s') && id in s'.watches && Failing(ViewOf(s', id).phase)
    ensures id in s.watches
    ensures var v, v' := ViewOf(s, id), ViewOf(s', id);
            if l == Act(id, Reissue(false)) then !Stale(v') && (Untold(v') ==> Returning(v.w))
            else
              && Failing(v.phase) && l != Act(id, Unwatch(true)) && l != Act(id, Unwatch(false))
              && (Stale(v') ==> Stale(v) || (l == Act(id, ReadError) && Untold(v)))
              && (Untold(v') ==> Untold(v))
  {
    hide ViewInv, ViewStep, Occurrences, LockInv, UnderLock, TableAfter, LockAfter, Stale, Untold, Failing;
    if l.Create? {
      if l.id == id {
        CreatedStale(s, id, s');
        StaleIsFailing(s, id);
      }
    } else if l.id != id {
      OthersKeep(s, l.id, l.a, s', id);
    } else if l.a == Reissue(false) {
      FailsNow(ViewOf(s, id), ViewOf(s', id));
    } else {
      FailingBefore(ViewOf(s, id), l.a, ViewOf(s', id));
    }
  }

  lemma StaleIsFailing(s: State, id: Id)
    requires id in s.watches && Stale(ViewOf(s, id))
    ensures Failing(ViewOf(s, id).phase)
  {
  }

  /** The failure that the worker has in hand, and what the start had done when it happened. */
  lemma {:induction false} History(ss: seq<State>, ls: seq<Label>, id: Id) returns (i: nat)
    requires IsRun(ss, ls) && Init(ss[0]) && id in ss[|ls|].watches && Failing(ViewOf(ss[|ls|], id).phase)
    ensures i < |ls| && ls[i] == Act(id, Reissue(false)) && NotUnwatched(ls, id, i)
    ensures id in ss[i].watches && (Untold(ViewOf(ss[|ls|], id)) ==> Returning(ss[i].watches[id]))
    ensures Stale(ViewOf(ss[|ls|], id)) ==> Raced(ss, ls, id)
  {
    hide Inv, Next, ViewOf, Returning, Stale, Untold, Failing;
    NothingAtFirst(ss[0], id);
    var n := |ls| - 1;
    var us, ks := ss[..|ls|], ls[..n];
    InitHolds(ss[0]);
    RunKeepsInv(us, ks);
    assert Next(ss[n], ls[n], ss[|ls|]);
    StepBefore(ss[n], ls[n], ss[|ls|], id);
    if ls[n] == Act(id, Reissue(false)) {
      i := n;
      ViewHasWatch(ss[n], id);
    } else {
      i := History(us, ks, id);
      if Stale(ViewOf(ss[|ls|], id)) {
        if Stale(ViewOf(ss[n], id)) {
          var i', j :| RacedAt(us, ks, id, i', j);
          assert RacedAt(ss, ls, id, i', j);
        } else {
          assert RacedAt(ss, ls, id, i, n);
        }
      }
    }
  }

  lemma ViewHasWatch(s: State, id: Id)
    requires id in s.watches
    ensures ViewOf(s, id).w == s.watches[id]
  {
  }

  lemma NothingAtFirst(s: State, id: Id)
    requires Init(s)
    ensures id !in s.watches
  {
  }

  // ---------- The race leaves the worker with a stale watch ----------

  lemma StaysStale(v: View, a: Action, v': View)
    requires ViewInv(v) && ViewStep(v, a, v') && !a.Unwatch? && (Untold(v) || Stale(v))
    ensures if Stale(v) || a.ReadError? then Stale(v') else Untold(v')
  {
  }

  lemma StepAfter(s: State, l: Label, s': State, id: Id)
    requires Inv(s) && Next(s, l, s') && id in s.watches && l != Act(id, Unwatch(true)) && l != Act(id, Unwatch(false))
    ensures id in s'.watches
    ensures var v, v' := ViewOf(s, id), ViewOf(s', id);
            && (Stale(v) || (Untold(v) && l == Act(id, ReadError)) ==> Stale(v'))
            && (Untold(v) && l != Act(id, ReadError) ==> Untold(v'))
            && (l == Act(id, Reissue(false)) && Returning(v.w) ==> Untold(v'))
  {
    hide ViewInv, Occurrences, LockInv, UnderLock, TableAfter, LockAfter;
    if l.Act? && l.id != id {
      OthersKeep(s, l.id, l.a, s', id);
    } else if l.Act? && (Untold(ViewOf(s, id)) || Stale(ViewOf(s, id))) {
      StaysStale(ViewOf(s, id), l.a, ViewOf(s', id));
    }
  }

  lemma {:induction false} RacedIsStale(ss: seq<State>, ls: seq<Label>, id: Id, i: nat, j: nat)
    requires IsRun(ss, ls) && Init(ss[0]) && i < |ls| && NotUnwatched(ls, id, i)
    requires ls[i] == Act(id, Reissue(false)) && id in ss[i].watches && Returning(ss[i].watches[id])
    requires i < j ==> j < |ls| && ls[j] == Act(id, ReadError)
    ensures id in ss[|ls|].watches
    ensures var v := ViewOf(ss[|ls|], id); Stale(v) || (Untold(v) && i >= j)
  {
    hide Inv, Next, ViewOf, Returning, Stale, Untold;
    var n := |ls| - 1;
    var us, ks := ss[..|ls|], ls[..n];
    InitHolds(ss[0]);
    RunKeepsInv(us, ks);
    assert Next(ss[n], ls[n], ss[|ls|]);
    if i == n {
      ViewHasWatch(ss[n], id);
    } else {
      RacedIsStale(us, ks, id, i, if j == n then i else j);
    }
    StepAfter(ss[n], ls[n], ss[|ls|], id);
  }

  // ---------- What the handshake is for ----------

  /**
   In every run: the worker holds a watch whose start was reported as failed, or the address of a
   deleted one, if and only if a re-issued read of the watch failed between the signal and the
   return of its start, the start has returned since, and the worker is not done with the failure.
  */
  lemma StaleIffRaced(ss: seq<State>, ls: seq<Label>, id: Id)
    requires IsRun(ss, ls) && Init(ss[0])
    ensures HeldStale(ss[|ls|], id) <==> Raced(ss, ls, id)
  {
    hide Stale, Returning, Init, Next, ViewOf;
    if HeldStale(ss[|ls|], id) {
      StaleIsFailing(ss[|ls|], id);
      var i := History(ss, ls, id);
    }
    if Raced(ss, ls, id) {
      var i, j :| RacedAt(ss, ls, id, i, j);
      RacedIsStale(ss, ls, id, i, j);
    }
  }

  /**
   In every run: once the shutdown event is signalled, or the start has failed, no packet of the
   watch is in the port and none of its reads is pending. The worker is elsewhere as well, but
   for the race above. This stays so until the watch is deleted and after it.
  */
  lemma NothingDangles(ss: seq<State>, ls: seq<Label>, id: Id)
    requires IsRun(ss, ls) && Init(ss[0])
    requires id in ss[|ls|].watches && Over(ss[|ls|].watches[id])
    ensures id !in ss[|ls|].port && !ss[|ls|].watches[id].pending
    ensures (ss[|ls|].worker.Busy? && ss[|ls|].worker.id == id) <==> Raced(ss, ls, id)
  {
    hide Next, Raced;
    InitHolds(ss[0]);
    RunKeepsInv(ss, ls);
    OverIsQuiet(ss[|ls|], id);
    StaleIffRaced(ss, ls, id);
  }

  lemma OverIsQuiet(s: State, id: Id)
    requires Inv(s) && id in s.watches && Over(s.watches[id])
    ensures id !in s.port && !s.watches[id].pending
    ensures (s.worker.Busy? && s.worker.id == id) <==> HeldStale(s, id)
  {
    OccursIffIn(s.port, id);
    assert ViewInv(ViewOf(s, id));
  }

  /**
   No thread touches a deleted watch, but for the race above: then the worker reports the error
   with it, or looks for it in the table, where it is not.
  */
  lemma DeletedIsGone(ss: seq<State>, ls: seq<Label>, id: Id, l: Label, s': State)
    requires IsRun(ss, ls) && Init(ss[0]) && Next(ss[|ls|], l, s')
    requires id in ss[|ls|].watches && ss[|ls|].watches[id].caller.Deleted?
    ensures l.Act? && l.id == id ==> Raced(ss, ls, id) && (l.a.Report? || l.a == Unwatch(false))
  {
    hide Next, Raced;
    InitHolds(ss[0]);
    RunKeepsInv(ss, ls);
    StaleIffRaced(ss, ls, id);
    DeletedStep(ss[|ls|], id, l, s');
  }

  lemma DeletedStep(s: State, id: Id, l: Label, s': State)
    requires Inv(s) && Next(s, l, s') && id in s.watches && s.watches[id].caller.Deleted?
    ensures l.Act? && l.id == id ==> HeldStale(s, id) && (l.a.Report? || l.a == Unwatch(false))
  {
    hide Listed, TableAfter;
    assert ViewInv(ViewOf(s, id));
  }

  /** In every run the worker uses a watch that is gone only after that race. */
  lemma MisuseIsRaced(ss: seq<State>, ls: seq<Label>, l: Label, s': State)
    requires IsRun(ss, ls) && Init(ss[0]) && Next(ss[|ls|], l, s')
    ensures !Proper(ss[|ls|], l) ==> Raced(ss, ls, l.id)
  {
    hide Raced;
    StaleIffRaced(ss, ls, l.id);
    MisusedIsStale(ss[|ls|], l, s');
  }

  lemma MisusedIsStale(s: State, l: Label, s': State)
    requires Next(s, l, s')
    ensures !Proper(s, l) ==> HeldStale(s, l.id)
  {
    hide Occurrences, UnderLock, TableAfter, LockAfter;
  }

  // ---------- What a start returns ----------

  /** The first read of the watch failed. */
  ghost predicate FirstReadFailed(ss: seq<State>, ls: seq<Label>, id: Id)
    requires |ss| == |ls| + 1
  {
    if ls == [] || ls[|ls| - 1] == Create(id) then false
    else
      var n := |ls| - 1;
      || FirstReadFailed(ss[..|ls|], ls[..n], id)
      || (ls[n] == Act(id, Switch(false)) && PhaseOf(ss[n].worker, id) == Chosen(StartMonitoring))
  }

  /** A re-issued read of the watch failed. */
  ghost predicate ReissueFailed(ls: seq<Label>, id: Id) {
    if ls == [] || ls[|ls| - 1] == Create(id) then false
    else ReissueFailed(ls[..|ls| - 1], id) || ls[|ls| - 1] == Act(id, Reissue(false))
  }

  /** The start has not returned yet. */
  predicate NotReturned(c: Caller) {
    c.Created? || c.StartSet? || c.WaitStart? || c.StartSeen? || c.StartReset?
  }

  /** How a step of a watch changes its error field before the start has returned. */
  lemma ErrorMoves(v: View, a: Action, v': View)
    requires ViewInv(v) && ViewStep(v, a, v') && NotReturned(v'.w.caller)
    ensures NotReturned(v.w.caller)
    ensures v'.w.error <==>
            v.w.error || a == Reissue(false) || (a == Switch(false) && v.phase == Chosen(StartMonitoring))
  {
    hide ViewInv, CallerStep, WorkerStep;
    if ByWorker(a) {
      WorkerErrorMoves(v, a, v');
    } else if !a.Complete? {
      CallerKeepsError(v, a, v');
    }
  }

  lemma WorkerErrorMoves(v: View, a: Action, v': View)
    requires ViewInv(v) && ByWorker(a) && WorkerStep(v, a, v') && NotReturned(v'.w.caller)
    ensures NotReturned(v.w.caller)
    ensures v'.w.error <==>
            v.w.error || a == Reissue(false) || (a == Switch(false) && v.phase == Chosen(StartMonitoring))
  {
    hide ViewInv, WorkerStep;
    if a.Finish? {
      FinishKeepsError(v, v');
    } else {
      OtherErrorMoves(v, a, v');
    }
  }

  /** Clearing the field changes nothing: there is no error in it. */
  lemma FinishKeepsError(v: View, v': View)
    requires ViewInv(v) && WorkerStep(v, Finish, v') && NotReturned(v'.w.caller)
    ensures NotReturned(v.w.caller) && v'.w.error == v.w.error
  {
  }

  lemma OtherErrorMoves(v: View, a: Action, v': View)
    requires ByWorker(a) && WorkerStep(v, a, v') && NotReturned(v'.w.caller) && !a.Finish?
    ensures NotReturned(v.w.caller)
    ensures v'.w.error <==>
            v.w.error || a == Reissue(false) || (a == Switch(false) && v.phase == Chosen(StartMonitoring))
  {
  }

  lemma CallerKeepsError(v: View, a: Action, v': View)
    requires !ByWorker(a) && !a.Complete? && CallerStep(v, a, v')
    ensures v'.w.error == v.w.error && v'.w.pending == v.w.pending
    ensures NotReturned(v'.w.caller) ==> NotReturned(v.w.caller)
  {
  }

  lemma ErrorStep(s: State, l: Label, s': State, id: Id)
    requires Inv(s) && Next(s, l, s') && id in s'.watches && NotReturned(s'.watches[id].caller)
    ensures l == Create(id) ==> !s'.watches[id].error
    ensures l != Create(id) ==> id in s.watches && NotReturned(s.watches[id].caller)
    ensures l != Create(id) ==>
              (s'.watches[id].error <==>
               || s.watches[id].error || l == Act(id, Reissue(false))
               || (l == Act(id, Switch(false)) && PhaseOf(s.worker, id) == Chosen(StartMonitoring)))
  {
    hide ViewInv, ViewStep, Occurrences, LockInv, UnderLock, TableAfter, LockAfter;
    if l.Act? {
      if l.id == id {
        ErrorMoves(ViewOf(s, id), l.a, ViewOf(s', id));
      } else {
        OthersKeep(s, l.id, l.a, s', id);
      }
    }
  }

  /** Before the start has returned, the error field holds an error exactly if a read of the watch failed. */
  lemma {:induction false} ErrorIffFailed(ss: seq<State>, ls: seq<Label>, id: Id)
    requires IsRun(ss, ls) && Init(ss[0]) && id in ss[|ls|].watches && NotReturned(ss[|ls|].watches[id].caller)
    ensures ss[|ls|].watches[id].error <==> FirstReadFailed(ss, ls, id) || ReissueFailed(ls, id)
  {
    hide Inv, Next, NotReturned;
    NothingAtFirst(ss[0], id);
    var n := |ls| - 1;
    var us, ks := ss[..|ls|], ls[..n];
    InitHolds(ss[0]);
    RunKeepsInv(us, ks);
    assert Next(ss[n], ls[n], ss[|ls|]);
    ErrorStep(ss[n], ls[n], ss[|ls|], id);
    if ls[n] != Create(id) {
      ErrorIffFailed(us, ks, id);
    }
  }

  /**
   In every run: a start returns an error if and only if the first read of the watch failed, or a
   re-issued one did before the return; otherwise it returns success.
  */
  lemma StartFailsIff(ss: seq<State>, ls: seq<Label>, id: Id, s': State)
    requires IsRun(ss, ls) && Init(ss[0]) && Next(ss[|ls|], Act(id, ReadError), s')
    ensures id in s'.watches && (s'.watches[id].caller.StartFailed? || s'.watches[id].caller.Started?)
    ensures s'.watches[id].caller.StartFailed? <==> FirstReadFailed(ss, ls, id) || ReissueFailed(ls, id)
  {
    hide FirstReadFailed, ReissueFailed, Init;
    ReturnsError(ss[|ls|], id, s');
    ErrorIffFailed(ss, ls, id);
  }

  lemma ReturnsError(s: State, id: Id, s': State)
    requires Next(s, Act(id, ReadError), s')
    ensures id in s.watches && s.watches[id].caller.StartReset? && id in s'.watches
    ensures s'.watches[id].caller == if s.watches[id].error then StartFailed else Started
  {
    hide Occurrences, TableAfter;
  }

  // ---------- Only a read that was issued completes ----------

  /** How many reads of the watch were issued with success. */
  ghost function Issued(ss: seq<State>, ls: seq<Label>, id: Id): nat
    requires |ss| == |ls| + 1
  {
    if ls == [] then 0
    else
      var n := |ls| - 1;
      Issued(ss[..|ls|], ls[..n], id) + if IssuesRead(ss[n], ls[n], id) then 1 else 0
  }

  predicate IssuesRead(s: State, l: Label, id: Id) {
    || (l == Act(id, Switch(true)) && PhaseOf(s.worker, id) == Chosen(StartMonitoring))
    || l == Act(id, Reissue(true))
  }

  function Completions(ls: seq<Label>, id: Id): nat {
    if ls == [] then 0 else Completions(ls[..|ls| - 1], id) + if ls[|ls| - 1] == Act(id, Complete) then 1 else 0
  }

  predicate PendingAt(s: State, id: Id) {
    id in s.watches && s.watches[id].pending
  }

  lemma PendingMoves(v: View, a: Action, v': View)
    requires ViewInv(v) && ViewStep(v, a, v')
    ensures var issued := a == Reissue(true) || (a == Switch(true) && v.phase == Chosen(StartMonitoring));
            && v'.w.pending == (issued || (v.w.pending && !a.Complete?))
            && (issued ==> !v.w.pending) && (a.Complete? ==> v.w.pending)
  {
    hide ViewInv, CallerStep, WorkerStep;
    if ByWorker(a) {
      WorkerPendingMoves(v, a, v');
    } else if !a.Complete? {
      CallerKeepsError(v, a, v');
    }
  }

  lemma WorkerPendingMoves(v: View, a: Action, v': View)
    requires ViewInv(v) && ByWorker(a) && WorkerStep(v, a, v')
    ensures var issued := a == Reissue(true) || (a == Switch(true) && v.phase == Chosen(StartMonitoring));
            v'.w.pending == (issued || v.w.pending) && (issued ==> !v.w.pending)
  {
  }

  lemma PendingStep(s: State, l: Label, s': State, id: Id)
    requires Inv(s) && Next(s, l, s')
    ensures PendingAt(s', id) == (IssuesRead(s, l, id) || (PendingAt(s, id) && l != Act(id, Complete)))
    ensures IssuesRead(s, l, id) ==> !PendingAt(s, id)
    ensures l == Act(id, Complete) ==> PendingAt(s, id)
  {
    hide ViewStep, Occurrences, LockInv, UnderLock, TableAfter, LockAfter;
    if l.Act? {
      if l.id == id {
        PendingMoves(ViewOf(s, id), l.a, ViewOf(s', id));
      } else if id in s.watches {
        OthersKeep(s, l.id, l.a, s', id);
      }
    } else if l.id == id && id in s.watches {
      assert ViewInv(ViewOf(s, id));
    }
  }

  /** In every run the reads of a watch that were issued are those that completed and the one that is pending. */
  lemma {:induction false} ReadsComplete(ss: seq<State>, ls: seq<Label>, id: Id)
    requires IsRun(ss, ls) && Init(ss[0])
    ensures Issued(ss, ls, id) == Completions(ls, id) + if PendingAt(ss[|ls|], id) then 1 else 0
  {
    hide Inv, Next, PendingAt, IssuesRead;
    if ls == [] {
      NothingPending(ss[0], id);
    } else {
      var n := |ls| - 1;
      InitHolds(ss[0]);
      RunKeepsInv(ss[..|ls|], ls[..n]);
      ReadsComplete(ss[..|ls|], ls[..n], id);
      assert Next(ss[n], ls[n], ss[|ls|]);
      PendingStep(ss[n], ls[n], ss[|ls|], id);
      CompletesOnly(ss[n], ls[n], id);
    }
  }

  lemma CompletesOnly(s: State, l: Label, id: Id)
    ensures !(IssuesRead(s, l, id) && l == Act(id, Complete))
  {
  }

  lemma NothingPending(s: State, id: Id)
    requires Init(s)
    ensures !PendingAt(s, id)
  {
  }
}
