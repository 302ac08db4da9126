/** Runs of `DirectoryWatch` that end in a wait that never ends, or in the use of a watch that is gone. */
module DirectoryWatchHangs {
  import opened Optional
  import opened WatchTable
  import opened DirectoryWatch
  import opened DirectoryWatchSafety
  import opened DirectoryWatchLiveness

  ghost predicate Reachable(s: State) {
    exists ss, ls :: RunTo(ss, ls, s)
  }

  ghost predicate RunTo(ss: seq<State>, ls: seq<Label>, s: State) {
    IsRun(ss, ls) && Init(ss[0]) && ss[|ls|] == s
  }

  lemma OneMore(ss: seq<State>, ls: seq<Label>, s: State, l: Label, s': State)
    requires RunTo(ss, ls, s) && Next(s, l, s')
    ensures RunTo(ss + [s'], ls + [l], s')
  {
    hide Next;
    var ts, ks := ss + [s'], ls + [l];
    forall i | 0 <= i < |ks|
      ensures Next(ts[i], ks[i], ts[i + 1])
    {
      if i < |ls| {
        assert ts[i] == ss[i] && ks[i] == ls[i] && ts[i + 1] == ss[i + 1];
      }
    }
  }

  lemma Go(s: State, id: Id, a: Action, v: View) returns (s': State)
    requires Reachable(s) && Inv(s) && id in s.watches && ViewStep(ViewOf(s, id), a, v) && MayMove(s, id, a)
    ensures s' == After(s, id, a, v) && ViewOf(s', id) == v && Reachable(s') && Inv(s')
  {
    hide ViewStep, MayMove, ViewOf, After, WatchStep, Inv;
    s' := After(s, id, a, v);
    AfterIsStep(s, id, a, v);
    NextKeeps(s, Act(id, a), s');
    var ss: seq<State>, ls: seq<Label> :| RunTo(ss, ls, s);
    OneMore(ss, ls, s, Act(id, a), s');
  }

  /** A run has come to `s`, in which there is one watch. */
  ghost predicate Alone(s: State, v: View, listed: bool, locked: bool) {
    && Reachable(s) && Inv(s) && s.watches.Keys == {0} && ViewOf(s, 0) == v
    && Listed(s.table, 0) == listed && s.lock.Some? == locked
  }

  lemma ItsTurn(s: State, v: View, listed: bool, locked: bool)
    requires Alone(s, v, listed, locked)
    ensures s.worker == Occupied(0, v.phase) && (v.queued > 0 ==> s.port != [] && s.port[0] == 0)
  {
    hide ViewInv, LockInv, Reachable;
    if s.port != [] {
      assert s.port[0] in s.port;
      assert s.port[0] in s.watches.Keys;
    }
  }

  /** One step further in that run. */
  lemma Walk(s: State, v: View, listed: bool, locked: bool, a: Action, v': View) returns (s': State)
    requires Alone(s, v, listed, locked) && ViewStep(v, a, v') && (a.Delete? ==> v.w.caller.StartFailed?)
    requires if a.Dequeue? then v.queued > 0 && v.phase.Away? else ByWorker(a) ==> !v.phase.Away?
    requires (a.AddWatch? || a.SetStop? || a.Unwatch? ==> !locked) && (a.SetStop? ==> listed)
    requires a.Unwatch? ==> a.found == listed
    ensures Alone(s', v', a.AddWatch? || (listed && !a.Unwatch?), a.SetStop? || locked)
  {
    hide ViewStep, Inv, Reachable, Occurrences, TableAfter, Listed;
    ItsTurn(s, v, listed, locked);
    TableStep(s, 0, a, 0);
    WalksOn(s, a, v');
    s' := Go(s, 0, a, v');
  }

  lemma WalksOn(s: State, a: Action, v': View)
    requires s.watches.Keys == {0} && UnderLock(s, 0, a) && (a.Delete? ==> s.watches[0].caller.StartFailed?)
    ensures var s' := After(s, 0, a, v');
            && s'.watches.Keys == {0} && s'.lock.Some? == (a.SetStop? || s.lock.Some?)
            && Listed(s'.table, 0) == (a.AddWatch? || (Listed(s.table, 0) && !a.Unwatch?))
  {
    hide TableAfter, Listed, ByWorker, Occurrences;
    TableStep(s, 0, a, 0);
    TableKept(s, 0, a);
  }

  lemma TableKept(s: State, id: Id, a: Action)
    requires id in s.watches && (a.Delete? ==> s.watches[id].caller.StartFailed?)
    ensures !a.AddWatch? && !(a.Unwatch? && Listed(s.table, id)) ==> TableAfter(s, id, a) == s.table
  {
  }

  lemma CreatedExample() returns (s: State)
    ensures Alone(s, View(NEW_WATCH, 0, Away), false, false)
  {
    var s0 := State([], Free, map[], [], None);
    s := s0.(watches := map[0 := NEW_WATCH]);
    assert RunTo([s0], [], s0);
    NextKeeps(s0, Create(0), s);
    OneMore([s0], [], s0, Create(0), s);
  }

  /** A watch was started, and the thread that starts it has seen the event. */
  lemma SeenExample() returns (s: State)
    ensures Alone(s, View(Watch(Normal, true, true, true, false, StartSeen, 1, false), 0, Away), false, false)
  {
    hide Alone;
    var s0 := CreatedExample();
    var w0 := Watch(StartMonitoring, true, false, false, false, StartSet, 0, false);
    var s1 := Walk(s0, View(NEW_WATCH, 0, Away), false, false, SetStart, View(w0, 0, Away));
    var w1 := Watch(StartMonitoring, true, false, false, false, WaitStart, 0, false);
    var s2 := Walk(s1, View(w0, 0, Away), false, false, PostStart, View(w1, 1, Away));
    var w2 := Watch(StartMonitoring, true, false, false, false, WaitStart, 1, false);
    var s3 := Walk(s2, View(w1, 1, Away), false, false, Dequeue, View(w2, 0, Taken));
    var s4 := Walk(s3, View(w2, 0, Taken), false, false, ReadState, View(w2, 0, Chosen(StartMonitoring)));
    s := SignalledExample(s4);
  }

  lemma SignalledExample(s: State) returns (s': State)
    requires var w := Watch(StartMonitoring, true, false, false, false, WaitStart, 1, false);
             Alone(s, View(w, 0, Chosen(StartMonitoring)), false, false)
    ensures Alone(s', View(Watch(Normal, true, true, true, false, StartSeen, 1, false), 0, Away), false, false)
  {
    hide Alone;
    var w2 := Watch(StartMonitoring, true, false, false, false, WaitStart, 1, false);
    var w3 := w2.(pending := true);
    var s5 := Walk(s, View(w2, 0, Chosen(StartMonitoring)), false, false, Switch(true), View(w3, 0, ToNormal));
    var w4 := Watch(Normal, true, true, false, false, WaitStart, 1, false);
    var s6 := Walk(s5, View(w3, 0, ToNormal), false, false, Finish, View(w4, 0, ToSignal));
    var w5 := Watch(Normal, true, true, true, false, WaitStart, 1, false);
    var s7 := Walk(s6, View(w4, 0, ToSignal), false, false, Finish, View(w5, 0, Away));
    var w6 := Watch(Normal, true, true, true, false, StartSeen, 1, false);
    s' := Walk(s7, View(w5, 0, Away), false, false, SeeEvent, View(w6, 0, Away));
  }

  /** The start has returned, and the watch is not in the table yet. */
  lemma StartedExample() returns (s: State)
    ensures Alone(s, View(Watch(Normal, true, true, false, false, Started, 1, false), 0, Away), false, false)
  {
    hide Alone;
    var s0 := SeenExample();
    var w0 := Watch(Normal, true, true, true, false, StartSeen, 1, false);
    var w1 := Watch(Normal, true, true, false, false, StartReset, 1, false);
    var s1 := Walk(s0, View(w0, 0, Away), false, false, ResetEvent, View(w1, 0, Away));
    var w2 := Watch(Normal, true, true, false, false, Started, 1, false);
    s := Walk(s1, View(w1, 0, Away), false, false, ReadError, View(w2, 0, Away));
  }

  /** The worker has processed the first changes of a running watch, in the table or not. */
  lemma ChangedExample(s: State, w: Watch, listed: bool) returns (s': State)
    requires w.pending && w.running == Normal && (w.caller.StartSeen? || w.caller.Started? || w.caller.Watching?)
    requires Alone(s, View(w, 0, Away), listed, false)
    ensures Alone(s', View(w.(pending := false, dequeues := w.dequeues + 1), 0, ToReissue), listed, false)
  {
    hide Alone;
    var w1 := w.(pending := false);
    var s1 := Walk(s, View(w, 0, Away), listed, false, Complete, View(w1, 1, Away));
    var w2 := w1.(dequeues := w.dequeues + 1);
    var s2 := Walk(s1, View(w1, 1, Away), listed, false, Dequeue, View(w2, 0, Taken));
    var s3 := Walk(s2, View(w2, 0, Taken), listed, false, ReadState, View(w2, 0, Chosen(Normal)));
    s' := Walk(s3, View(w2, 0, Chosen(Normal)), listed, false, Switch(true), View(w2, 0, ToReissue));
  }

  /**
   A stop begins while the worker handles changes, and the re-issued read fails: the stopping
   thread holds the lock the worker needs, and waits for the worker.
  */
  lemma HangHappens() returns (s: State)
    ensures Reachable(s) && 0 in s.watches && Waits(s.watches[0]) && Hangs(s)
  {
    hide Alone;
    var s0 := StoppingExample();
    var w0 := Watch(Stop, true, false, false, false, WaitStop, 0, false);
    var w1 := Watch(Stop, true, false, false, true, WaitStop, 0, false);
    var s1 := Walk(s0, View(w0, 1, ToReissue), true, true, Reissue(false), View(w1, 1, ToReport));
    s := Walk(s1, View(w1, 1, ToReport), true, true, Report, View(w1, 1, ToUnwatch));
    WaitsAtTable(s, w1);
  }

  lemma StoppingExample() returns (s: State)
    ensures Alone(s, View(Watch(Stop, true, false, false, false, WaitStop, 0, false), 1, ToReissue), true, true)
  {
    hide Alone;
    var s0 := StartedExample();
    var w0 := Watch(Normal, true, true, false, false, Started, 1, false);
    var w1 := Watch(Normal, true, true, false, false, Watching, 1, false);
    var s1 := Walk(s0, View(w0, 0, Away), false, false, AddWatch, View(w1, 0, Away));
    var s2 := ChangedExample(s1, w1, true);
    var w2 := Watch(Normal, true, false, false, false, Watching, 2, false);
    var w3 := Watch(Stop, true, false, false, false, StopSet, 2, false);
    var s3 := Walk(s2, View(w2, 0, ToReissue), true, false, SetStop, View(w3, 0, ToReissue));
    var w4 := Watch(Stop, true, false, false, false, WaitStop, 0, false);
    s := Walk(s3, View(w3, 0, ToReissue), true, true, PostStop, View(w4, 1, ToReissue));
  }

  lemma WaitsAtTable(s: State, w: Watch)
    requires Alone(s, View(w, 1, ToUnwatch), true, true) && w.caller.WaitStop? && !w.event
    ensures Reachable(s) && 0 in s.watches && Waits(s.watches[0]) && Hangs(s)
  {
    ItsTurn(s, View(w, 1, ToUnwatch), true, true);
    hide ViewInv, Occurrences, Reachable;
  }

  /**
   The re-issued read fails after the start has returned, but before the watch is in the table: it
   is put there all the same, and a stop waits for the packet of a read that does not exist.
  */
  lemma LossHappens() returns (s: State)
    ensures Reachable(s) && 0 in s.watches && Waits(s.watches[0]) && s.watches[0].lost && !Hangs(s)
  {
    hide Alone;
    var s0 := LostExample();
    var w0 := Watch(Normal, true, false, false, true, Started, 2, true);
    var w1 := w0.(caller := Watching);
    var s1 := Walk(s0, View(w0, 0, Away), false, false, AddWatch, View(w1, 0, Away));
    var w2 := w1.(running := Stop, caller := StopSet);
    var s2 := Walk(s1, View(w1, 0, Away), true, false, SetStop, View(w2, 0, Away));
    var w3 := w2.(caller := WaitStop, dequeues := 0);
    s := Walk(s2, View(w2, 0, Away), true, true, PostStop, View(w3, 1, Away));
    LostInPort(s, w3);
  }

  lemma LostExample() returns (s: State)
    ensures Alone(s, View(Watch(Normal, true, false, false, true, Started, 2, true), 0, Away), false, false)
  {
    hide Alone;
    var s0 := StartedExample();
    var w0 := Watch(Normal, true, true, false, false, Started, 1, false);
    var s1 := ChangedExample(s0, w0, false);
    var w1 := w0.(pending := false, dequeues := 2);
    var w2 := w1.(error := true);
    var s2 := Walk(s1, View(w1, 0, ToReissue), false, false, Reissue(false), View(w2, 0, ToReport));
    var s3 := Walk(s2, View(w2, 0, ToReport), false, false, Report, View(w2, 0, ToUnwatch));
    s := Walk(s3, View(w2, 0, ToUnwatch), false, false, Unwatch(false), View(w2.(lost := true), 0, Away));
  }

  lemma LostInPort(s: State, w: Watch)
    requires Alone(s, View(w, 1, Away), true, true) && w.caller.WaitStop? && !w.event && w.lost
    ensures Reachable(s) && 0 in s.watches && Waits(s.watches[0]) && s.watches[0].lost && !Hangs(s)
  {
    ItsTurn(s, View(w, 1, Away), true, true);
    hide ViewInv, Occurrences, Reachable;
  }

  /**
   The first changes come before the start has returned, and the re-issued read fails: the start
   returns its error and the watch is deleted, and the worker is about to report the error with it.
  */
  lemma RaceHappens() returns (s: State)
    ensures Reachable(s) && s.watches.Keys == {0} && s.watches[0].caller.Deleted?
    ensures s.worker == Busy(0, ToReport) && Freed(s) && s.lock == None
  {
    hide Alone;
    var s0 := SeenExample();
    var w0 := Watch(Normal, true, true, true, false, StartSeen, 1, false);
    var s1 := ChangedExample(s0, w0, false);
    s := RacingExample(s1);
  }

  lemma RacingExample(s1: State) returns (s: State)
    requires Alone(s1, View(Watch(Normal, true, false, true, false, StartSeen, 2, false), 0, ToReissue), false, false)
    ensures Reachable(s) && s.watches.Keys == {0} && s.watches[0].caller.Deleted?
    ensures s.worker == Busy(0, ToReport) && Freed(s) && s.lock == None
  {
    hide Alone;
    var w1 := Watch(Normal, true, false, true, false, StartSeen, 2, false);
    var w2 := Watch(Normal, true, false, true, true, StartSeen, 2, false);
    var s2 := Walk(s1, View(w1, 0, ToReissue), false, false, Reissue(false), View(w2, 0, ToReport));
    var w3 := Watch(Normal, true, false, false, true, StartReset, 2, false);
    var s3 := Walk(s2, View(w2, 0, ToReport), false, false, ResetEvent, View(w3, 0, ToReport));
    var w4 := Watch(Normal, true, false, false, true, StartFailed, 2, false);
    var s4 := Walk(s3, View(w3, 0, ToReport), false, false, ReadError, View(w4, 0, ToReport));
    var w5 := Watch(Normal, true, false, false, true, Deleted, 2, false);
    s := Walk(s4, View(w4, 0, ToReport), false, false, Delete, View(w5, 0, ToReport));
    GoneAtReport(s, w5);
  }

  lemma GoneAtReport(s: State, w: Watch)
    requires Alone(s, View(w, 0, ToReport), false, false) && w.caller.Deleted?
    ensures Reachable(s) && s.watches.Keys == {0} && s.watches[0] == w
    ensures s.worker == Busy(0, ToReport) && Freed(s) && s.lock == None
  {
    ItsTurn(s, View(w, 0, ToReport), false, false);
    hide ViewInv, Occurrences, Reachable;
  }

  /** A new watch takes over the address: the worker is about to report the error with the wrong watch. */
  lemma ReuseHappens() returns (s: State)
    ensures Reachable(s) && s.watches.Keys == {0} && s.watches[0] == NEW_WATCH
    ensures s.worker == Busy(0, ToReport) && Freed(s)
  {
    var s0 := RaceHappens();
    s := s0.(watches := s0.watches[0 := NEW_WATCH]);
    hide Inv, WatchStep;
    var ss: seq<State>, ls: seq<Label> :| RunTo(ss, ls, s0);
    OneMore(ss, ls, s0, Create(0), s);
  }
}
