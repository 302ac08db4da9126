/** Which starts and stops of `DirectoryWatch` come to their end, and which hang for ever. */
module DirectoryWatchLiveness {
  import opened Optional
  import opened WatchTable
  import opened DirectoryWatch
  import opened DirectoryWatchSafety

  /** The caller is about to wait, or waits, for an event that is not signalled. */
  predicate Unserved(w: Watch) {
    w.caller.StopSet? || (w.caller.WaitStop? && !w.event)
  }

  /** The worker has found that a re-issued read failed, and is on its way to the table. */
  predicate AtTable(s: State) {
    s.worker.Busy? && Failing(s.worker.phase)
  }

  /** The worker needs the lock of the table, and the thread that holds it waits for the worker. */
  predicate Hangs(s: State) {
    AtTable(s) && s.lock.Some? && s.lock.value in s.watches && Unserved(s.watches[s.lock.value])
  }

  /** The worker is about to use a watch that is gone. */
  predicate Freed(s: State) {
    s.worker.Busy? && s.worker.phase.ToReport? && s.worker.id in s.watches && Gone(s.watches[s.worker.id])
  }

  predicate Doomed(s: State, id: Id)
    requires id in s.watches
  {
    Hangs(s) || Freed(s) || s.watches[id].lost
  }

  predicate Signalled(w: Watch) {
    (w.caller.WaitStart? || w.caller.WaitStop?) && w.event
  }

  ghost predicate AllProper(ss: seq<State>, ls: seq<Label>)
    requires |ss| == |ls| + 1
  {
    forall i :: 0 <= i < |ls| ==> Proper(ss[i], ls[i])
  }

  /** The handle is closed, so the pending read completes; on an open handle it may stay pending for ever. */
  predicate Closed(w: Watch) {
    w.pending && !w.open
  }

  /**
   Steps nobody has to ask for: those of the worker with a read that succeeds, those of the thread
   that stops a watch, and the completion of a read by closing its handle. No directory changes.
  */
  predicate Owed(s: State, l: Label) {
    && l.Act?
    && (|| (ByWorker(l.a) && l.a != Switch(false) && l.a != Reissue(false))
        || (l.a.Complete? && l.id in s.watches && Closed(s.watches[l.id]))
        || (s.lock == Some(l.id) && (l.a.PostStop? || l.a.SeeEvent? || l.a.ResetEvent? || l.a.Delete?)))
  }

  /** The run goes on from `s` until the event of the watch is signalled, and uses no watch that is gone. */
  ghost predicate Ends(ss: seq<State>, ls: seq<Label>, s: State, id: Id) {
    IsRun(ss, ls) && AllProper(ss, ls) && ss[0] == s && id in ss[|ls|].watches && Signalled(ss[|ls|].watches[id])
  }

  ghost predicate CanEnd(s: State, id: Id) {
    exists ss, ls :: Ends(ss, ls, s, id)
  }

  /** The same by owed steps alone. */
  ghost predicate EndsByItself(ss: seq<State>, ls: seq<Label>, s: State, id: Id) {
    Ends(ss, ls, s, id) && forall i :: 0 <= i < |ls| ==> Owed(ss[i], ls[i])
  }

  ghost predicate CanEndByItself(s: State, id: Id) {
    exists ss, ls :: EndsByItself(ss, ls, s, id)
  }

  // ---------- A doomed wait never ends ----------

  /** What a step does to a watch that is not deleted: a step of its own, or nothing. */
  lemma ViewOfNext(s: State, l: Label, s': State, id: Id)
    requires Inv(s) && Next(s, l, s') && id in s.watches && !s.watches[id].caller.Deleted?
    ensures id in s'.watches
    ensures ViewInv(ViewOf(s, id))
    ensures if l.Act? && l.id == id then ViewStep(ViewOf(s, id), l.a, ViewOf(s', id))
            else ViewOf(s', id) == ViewOf(s, id)
  {
    hide ViewInv, ViewStep, Occurrences, LockInv, UnderLock, TableAfter, LockAfter;
    if l.Act? && l.id != id {
      OthersKeep(s, l.id, l.a, s', id);
    }
  }

  /** While the worker hangs, it comes no further than to the lock, which stays taken. */
  lemma HangingStep(s: State, l: Label, s': State)
    requires Inv(s) && Next(s, l, s') && Hangs(s)
    ensures (l.Act? ==> !ByWorker(l.a) || l.a.Report?) && AtTable(s') && s'.lock == s.lock
  {
    hide ViewInv, Occurrences, TableAfter;
  }

  lemma UnservedStays(v: View, a: Action, v': View)
    requires ViewInv(v) && ViewStep(v, a, v') && (!ByWorker(a) || a.Report?) && Unserved(v.w)
    ensures Unserved(v'.w)
  {
  }

  lemma WaitStays(v: View, a: Action, v': View)
    requires ViewInv(v) && ViewStep(v, a, v') && Waits(v.w) && (v.w.lost || !ByWorker(a) || a.Report?)
    ensures Waits(v'.w) && v'.w.lost == v.w.lost
  {
  }

  lemma HangsOn(s: State, l: Label, s': State)
    requires Inv(s) && Next(s, l, s') && Hangs(s)
    ensures Hangs(s')
  {
    HangingStep(s, l, s');
    var h := s.lock.value;
    ViewOfNext(s, l, s', h);
    hide Inv, Next, ViewInv, ViewStep, Occurrences;
    if l.Act? && l.id == h {
      UnservedStays(ViewOf(s, h), l.a, ViewOf(s', h));
    }
  }

  lemma GoneStays(v: View, a: Action, v': View)
    requires ViewStep(v, a, v') && !ByWorker(a) && Gone(v.w)
    ensures Gone(v'.w)
  {
  }

  /** As long as it does not use the watch that is gone, the worker does nothing. */
  lemma FreedStep(s: State, l: Label, s': State)
    requires Next(s, l, s') && Freed(s) && Proper(s, l)
    ensures (l.Act? ==> !ByWorker(l.a)) && s'.worker == s.worker
  {
    hide Occurrences, TableAfter, UnderLock, LockAfter;
  }

  lemma FreedOn(s: State, l: Label, s': State)
    requires Inv(s) && Next(s, l, s') && Freed(s) && Proper(s, l)
    ensures Freed(s')
  {
    hide ViewInv, ViewStep, Occurrences, LockInv, UnderLock, TableAfter, LockAfter;
    FreedStep(s, l, s');
    var x := s.worker.id;
    if l.Act? && l.id == x {
      GoneStays(ViewOf(s, x), l.a, ViewOf(s', x));
    }
  }

  lemma DoomedStays(s: State, l: Label, s': State, id: Id)
    requires Inv(s) && Next(s, l, s') && Proper(s, l)
    requires id in s.watches && Waits(s.watches[id]) && Doomed(s, id)
    ensures id in s'.watches && Waits(s'.watches[id]) && Doomed(s', id)
  {
    hide Inv, Next, ViewInv, ViewStep, Occurrences, Hangs, Freed, ByWorker, Proper;
    ViewOfNext(s, l, s', id);
    if Hangs(s) {
      HangingStep(s, l, s');
      HangsOn(s, l, s');
    } else if Freed(s) {
      FreedStep(s, l, s');
      FreedOn(s, l, s');
    }
    if l.Act? && l.id == id {
      WaitStays(ViewOf(s, id), l.a, ViewOf(s', id));
    }
  }

  /** A doomed wait is never signalled, unless the worker uses a watch that is gone. */
  lemma {:induction false} DoomedForever(ss: seq<State>, ls: seq<Label>, id: Id)
    requires IsRun(ss, ls) && Inv(ss[0]) && AllProper(ss, ls)
    requires id in ss[0].watches && Waits(ss[0].watches[id]) && Doomed(ss[0], id)
    ensures id in ss[|ls|].watches && Waits(ss[|ls|].watches[id]) && Doomed(ss[|ls|], id)
  {
    hide Inv, Next, Waits, Doomed, Proper;
    if |ls| > 0 {
      var n := |ls| - 1;
      DoomedForever(ss[..|ls|], ls[..n], id);
      RunKeepsInv(ss[..|ls|], ls[..n]);
      DoomedStays(ss[n], ls[n], ss[|ls|], id);
    }
  }

  // ---------- How a wait becomes doomed ----------

  /** What can doom a wait: a read that fails, or what overtakes the worker after it. */
  predicate Dooms(s: State, l: Label) {
    && l.Act?
    && (|| l.a == Reissue(false)
        || (AtTable(s) && l.a.SetStop?)
        || (AtTable(s) && l.a.Delete? && l.id in s.watches && s.watches[l.id].caller.StartFailed?))
  }

  lemma DoomBegins(s: State, l: Label, s': State, id: Id)
    requires Inv(s) && Next(s, l, s') && id in s.watches && Waits(s.watches[id]) && !Doomed(s, id)
    requires id in s'.watches && Doomed(s', id)
    ensures Dooms(s, l)
  {
    hide Inv, Next, ViewInv, ViewStep, Occurrences, Hangs, Freed, Dooms;
    ViewOfNext(s, l, s', id);
    if Hangs(s') {
      HangBegins(s, l, s');
    } else if Freed(s') {
      FreedBegins(s, l, s');
    } else if l.Act? && l.id == id {
      NotLostWaiting(ViewOf(s, id), l.a, ViewOf(s', id));
    }
  }

  lemma NotLostWaiting(v: View, a: Action, v': View)
    requires ViewInv(v) && ViewStep(v, a, v') && Waits(v.w)
    ensures v'.w.lost == v.w.lost
  {
  }

  lemma ComesToTable(s: State, l: Label, s': State)
    requires Next(s, l, s') && AtTable(s') && !AtTable(s)
    ensures l == Act(s'.worker.id, Reissue(false))
  {
    hide Occurrences, UnderLock, TableAfter, LockAfter, CallerStep, CompleteStep;
  }

  lemma LockMoves(s: State, l: Label, s': State)
    requires Next(s, l, s')
    ensures if l.Act? && l.a.SetStop? then s'.worker == s.worker else s'.lock == None || s'.lock == s.lock
  {
    hide Occurrences, ViewStep, TableAfter;
  }

  lemma UnservedBefore(v: View, a: Action, v': View)
    requires ViewInv(v) && ViewStep(v, a, v') && Unserved(v'.w) && !a.SetStop?
    ensures Unserved(v.w)
  {
  }

  lemma HangBegins(s: State, l: Label, s': State)
    requires Inv(s) && Next(s, l, s') && !Hangs(s) && Hangs(s')
    ensures Dooms(s, l)
  {
    LockMoves(s, l, s');
    if !AtTable(s) {
      ComesToTable(s, l, s');
    } else if s'.lock == s.lock {
      var h := s.lock.value;
      HolderIsThere(s);
      ViewOfNext(s, l, s', h);
      hide Inv, Next, ViewInv, ViewStep, Occurrences;
      if l.Act? && l.id == h && !l.a.SetStop? {
        UnservedBefore(ViewOf(s, h), l.a, ViewOf(s', h));
      }
    }
  }

  lemma StaysToReport(s: State, l: Label, s': State)
    requires Next(s, l, s') && s.worker.Busy? && Failing(s.worker.phase) && s'.worker.Busy? && s'.worker.phase.ToReport?
    ensures s'.worker == s.worker && (l.Act? ==> !ByWorker(l.a))
  {
    hide Occurrences, UnderLock, TableAfter, LockAfter, CallerStep, CompleteStep;
  }

  lemma GoneBegins(v: View, a: Action, v': View)
    requires ViewInv(v) && ViewStep(v, a, v') && Failing(v.phase) && !ByWorker(a) && Gone(v'.w) && !Gone(v.w)
    ensures a.Delete? && v.w.caller.StartFailed?
  {
  }

  lemma FreedBegins(s: State, l: Label, s': State)
    requires Inv(s) && Next(s, l, s') && !Freed(s) && Freed(s')
    ensures Dooms(s, l)
  {
    if !AtTable(s) {
      ComesToTable(s, l, s');
    } else {
      StaysToReport(s, l, s');
      var x := s.worker.id;
      NotAway(s);
      ViewOfNext(s, l, s', x);
      hide Inv, Next, ViewInv, ViewStep, Occurrences;
      if l.Act? && l.id == x {
        GoneBegins(ViewOf(s, x), l.a, ViewOf(s', x));
      }
    }
  }

  lemma HolderIsThere(s: State)
    requires Inv(s) && s.lock.Some?
    ensures s.lock.value in s.watches && Holding(s.watches[s.lock.value].caller)
  {
    hide ViewInv;
  }

  lemma NotAway(s: State)
    requires Inv(s) && s.worker.Busy?
    ensures s.worker.id in s.watches && !s.worker.phase.Away?
  {
    hide ViewInv, LockInv;
  }

  // ---------- How far a wait is from its end ----------

  /** The packets in the port before the first one of the watch. */
  function Ahead(port: seq<Id>, id: Id): nat {
    if port == [] || port[0] == id then 0 else 1 + Ahead(port[1..], id)
  }

  lemma {:induction false} AheadOfAppended(port: seq<Id>, x: Id, id: Id)
    requires id in port
    ensures Ahead(port + [x], id) == Ahead(port, id)
  {
    if port[0] != id {
      assert port == [port[0]] + port[1..];
      assert (port + [x])[1..] == port[1..] + [x];
      AheadOfAppended(port[1..], x, id);
    }
  }

  /** Once the handle is closed it is the pending read that is waited for, not the port. */
  function Position(s: State, id: Id): nat
    requires id in s.watches
  {
    if Closed(s.watches[id]) || id !in s.port then 0 else Ahead(s.port, id)
  }

  /** What the thread that holds the lock of the table still does once its event is signalled. */
  function StopLeft(c: Caller): nat {
    match c
    case WaitStop => 3
    case StopSeen => 2
    case Stopped => 1
    case _ => 0
  }

  function HolderLeft(s: State): (n: nat)
    ensures n <= 3
  {
    if s.lock.None? || s.lock.value !in s.watches then 0 else StopLeft(s.watches[s.lock.value].caller)
  }

  /** What the caller of a watch may still do before the worker can read the running state. */
  function CallerLeft(w: Watch): nat {
    if w.caller.StopSet? then 1 else if Holding(w.caller) then 0 else 2
  }

  /** What is left to do for the packet in the worker's hands. */
  function WorkLeft(s: State): nat {
    if s.worker == Free || s.worker.id !in s.watches then 0
    else PhaseLeft(s.worker.phase, s.watches[s.worker.id], HolderLeft(s))
  }

  function PhaseLeft(phase: Phase, w: Watch, holder: nat): nat {
    match phase
    case Away => 0
    case Taken => 8 + CallerLeft(w)
    case Chosen(_) => 7
    case ToReissue => 6
    case ToReport => 2 + holder
    case ToUnwatch => 1 + holder
    case ToNormal => 2
    case _ => 1
  }

  function Work(s: State, id: Id): nat
    requires id in s.watches
  {
    if Closed(s.watches[id]) then 0 else WorkLeft(s)
  }

  predicate Same(s: State, s': State, id: Id)
    requires id in s.watches && id in s'.watches
  {
    && Rank(ViewOf(s', id)) == Rank(ViewOf(s, id))
    && Position(s', id) == Position(s, id) && Work(s', id) == Work(s, id)
  }

  predicate Nearer(s: State, s': State, id: Id)
    requires id in s.watches && id in s'.watches
  {
    var r, r' := Rank(ViewOf(s, id)), Rank(ViewOf(s', id));
    var n, n' := Position(s, id), Position(s', id);
    r' < r || (r' == r && (n' < n || (n' == n && Work(s', id) < Work(s, id))))
  }

  // ---------- Who has to move ----------

  datatype Agent = WorkerThread | Reading | StoppingThread

  /** The agent whose step the wait needs next. */
  function Helper(s: State, id: Id): Agent
    requires id in s.watches
  {
    if Closed(s.watches[id]) then Reading
    else if s.worker.Busy? && s.worker.phase.ToUnwatch? && s.lock.Some? then StoppingThread
    else if s.worker.Busy? && s.worker.phase.Taken? && s.worker.id in s.watches
            && s.watches[s.worker.id].caller.StopSet? then StoppingThread
    else WorkerThread
  }

  predicate By(s: State, l: Label, g: Agent, id: Id) {
    match g
    case WorkerThread => l.Act? && ByWorker(l.a)
    case Reading => l == Act(id, Complete) && id in s.watches && Closed(s.watches[id])
    case StoppingThread =>
      l.Act? && s.lock == Some(l.id) && (l.a.PostStop? || l.a.SeeEvent? || l.a.ResetEvent? || l.a.Delete?)
  }

  /** A wait that is not doomed: where its packet is. */
  lemma WaitsFor(v: View)
    requires ViewInv(v) && Waits(v.w) && !v.w.lost && v.phase.Away?
    ensures v.queued > 0 || Closed(v.w)
  {
  }

  lemma PacketIsThere(s: State, id: Id)
    requires Inv(s) && id in s.watches && Waits(s.watches[id]) && !Doomed(s, id)
    requires !Closed(s.watches[id]) && (s.worker.Busy? ==> s.worker.id != id)
    ensures id in s.port
  {
    hide Hangs, Freed, LockInv, ViewInv;
    assert ViewInv(ViewOf(s, id));
    WaitsFor(ViewOf(s, id));
    OccursIffIn(s.port, id);
  }

  /** No step of another watch changes how far this one has come. */
  lemma RankStays(s: State, l: Label, s': State, id: Id)
    requires Inv(s) && Next(s, l, s') && id in s.watches && Waits(s.watches[id]) && l.id != id
    ensures id in s'.watches && ViewOf(s', id) == ViewOf(s, id)
  {
    hide ViewInv, ViewStep, Occurrences, LockInv, UnderLock, TableAfter, LockAfter;
    if l.Act? {
      OthersKeep(s, l.id, l.a, s', id);
    }
  }

  /** What a step does to the port. */
  lemma PortMoves(s: State, l: Label, s': State)
    requires Next(s, l, s')
    ensures || s'.port == s.port || s'.port == s.port + [l.id]
            || (l.Act? && l.a.Dequeue? && s.worker == Free
                && s.port != [] && s'.port == s.port[1..] && s.port[0] == l.id)
    ensures l.Act? && l.a.Dequeue? ==> s.port != [] && s'.port == s.port[1..]
  {
    hide ViewStep, Occurrences, UnderLock, TableAfter, LockAfter;
  }

  lemma PositionStep(s: State, l: Label, s': State, id: Id)
    requires Inv(s) && Next(s, l, s') && id in s.watches && Waits(s.watches[id]) && l.id != id && !Doomed(s, id)
    requires id in s'.watches && s'.watches[id] == s.watches[id] && !Closed(s.watches[id])
    ensures Position(s', id) <= Position(s, id)
    ensures l.Act? && l.a.Dequeue? ==> Position(s', id) < Position(s, id)
    ensures !(l.Act? && l.a.Dequeue?) ==> Position(s', id) == Position(s, id)
  {
    hide Inv, Next, Waits, Doomed;
    PortMoves(s, l, s');
    if id in s.port {
      AheadOfAppended(s.port, l.id, id);
    }
    if l.Act? && l.a.Dequeue? {
      PacketIsThere(s, id);
      assert s.port == [s.port[0]] + s.port[1..];
    }
  }

  lemma CallerLeftFalls(v: View, a: Action, v': View)
    requires ViewInv(v) && ViewStep(v, a, v') && !ByWorker(a) && v.phase.Taken?
    ensures CallerLeft(v'.w) <= CallerLeft(v.w)
    ensures a.PostStop? ==> CallerLeft(v'.w) < CallerLeft(v.w)
  {
  }

  lemma StopLeftFalls(v: View, a: Action, v': View)
    requires ViewInv(v) && ViewStep(v, a, v') && !ByWorker(a) && Holding(v.w.caller) && !Unserved(v.w)
    ensures StopLeft(v'.w.caller) <= StopLeft(v.w.caller)
    ensures a.PostStop? || a.SeeEvent? || a.ResetEvent? || a.Delete? ==> StopLeft(v'.w.caller) < StopLeft(v.w.caller)
  {
  }

  /** A step of the worker with the packet in its hands. */
  lemma WorkerWorks(s: State, l: Label, s': State)
    requires Inv(s) && Next(s, l, s') && l.Act? && ByWorker(l.a) && !l.a.Dequeue?
    ensures WorkLeft(s') < WorkLeft(s)
  {
    NotAway(s);
    hide Inv, ViewStep, Occurrences, UnderLock, TableAfter, Listed, HolderLeft, PhaseLeft;
    if l.a.Report? {
      HolderLeftStays(s, l, s');
    }
    PhaseLeftFalls(ViewOf(s, l.id), l.a, ViewOf(s', l.id), HolderLeft(s), HolderLeft(s'));
  }

  lemma PhaseLeftFalls(v: View, a: Action, v': View, h: nat, h': nat)
    requires ViewStep(v, a, v') && ByWorker(a) && !a.Dequeue?
    requires h' <= 3 && (a.Report? ==> h' == h)
    ensures PhaseLeft(v'.phase, v'.w, h') < PhaseLeft(v.phase, v.w, h)
  {
    hide CallerLeft;
  }

  lemma HolderLeftStays(s: State, l: Label, s': State)
    requires Next(s, l, s') && l.Act? && l.a.Report?
    ensures HolderLeft(s') == HolderLeft(s)
  {
    hide Occurrences, UnderLock, TableAfter;
  }

  /** A step that is not the worker's leaves it where it is. */
  lemma WorkerStays(s: State, l: Label, s': State)
    requires Next(s, l, s') && (l.Act? ==> !ByWorker(l.a))
    ensures s'.worker == s.worker
    ensures s'.lock == s.lock
            || (l.Act? && l.a.SetStop? && s.lock == None && s'.lock == Some(l.id))
            || (l.Act? && l.a.Delete? && l.id in s.watches && s.watches[l.id].caller.Stopped? && s'.lock == None)
    ensures l.Act? && l.a.Delete? && l.id in s.watches && s.watches[l.id].caller.Stopped? ==> s'.lock == None
    ensures l.Act? && l.a.SetStop? ==> s'.lock == Some(l.id) && l.id in s'.watches && s'.watches[l.id].caller.StopSet?
  {
    hide Occurrences, TableAfter;
  }

  /** While the worker is on its way to the table, its work does not grow. */
  lemma TableWork(s: State, l: Label, s': State)
    requires Inv(s) && Next(s, l, s') && (l.Act? ==> !ByWorker(l.a))
    requires AtTable(s) && !Hangs(s) && !Hangs(s')
    ensures s'.worker == s.worker && HolderLeft(s') <= HolderLeft(s)
    ensures HolderLeft(s') == HolderLeft(s) ==> s'.lock == s.lock && !By(s, l, StoppingThread, 0)
  {
    WorkerStays(s, l, s');
    hide Next, ViewInv, ViewStep, Occurrences, LockInv;
    if s.lock.Some? {
      var h := s.lock.value;
      HolderIsThere(s);
      HolderSteps(s, l, s');
    }
  }

  lemma HolderSteps(s: State, l: Label, s': State)
    requires Inv(s) && Next(s, l, s') && (l.Act? ==> !ByWorker(l.a))
    requires s.lock.Some? && s.lock.value in s.watches && Holding(s.watches[s.lock.value].caller)
    requires !Unserved(s.watches[s.lock.value])
    ensures var h := s.lock.value;
            && h in s'.watches && StopLeft(s'.watches[h].caller) <= StopLeft(s.watches[h].caller)
            && (By(s, l, StoppingThread, 0) ==> StopLeft(s'.watches[h].caller) < StopLeft(s.watches[h].caller))
            && (l.Act? && l.a.Delete? && l.id in s.watches && s.watches[l.id].caller.Stopped? ==> l.id == h)
            && StopLeft(s.watches[h].caller) > 0
  {
    var h := s.lock.value;
    ViewOfNext(s, l, s', h);
    OnlyHolder(s);
    hide Inv, Next, ViewInv, ViewStep, Occurrences;
    if l.Act? && l.id == h {
      StopLeftFalls(ViewOf(s, h), l.a, ViewOf(s', h));
    }
  }

  lemma OnlyHolder(s: State)
    requires Inv(s)
    ensures forall id :: id in s.watches && Holding(s.watches[id].caller) ==> s.lock == Some(id)
  {
    hide ViewInv;
  }

  /** While the worker waits for a caller to free the running state, or is elsewhere, its work does not grow. */
  lemma OtherWork(s: State, l: Label, s': State)
    requires Inv(s) && Next(s, l, s') && (l.Act? ==> !ByWorker(l.a)) && !AtTable(s)
    ensures s'.worker == s.worker && WorkLeft(s') <= WorkLeft(s)
    ensures s.worker.Busy? && s.worker.phase.Taken? && s.worker.id in s.watches ==>
              && s.worker.id in s'.watches
              && (WorkLeft(s') == WorkLeft(s) ==>
                    s'.watches[s.worker.id].caller.StopSet? == s.watches[s.worker.id].caller.StopSet?)
              && (s.watches[s.worker.id].caller.StopSet? && By(s, l, StoppingThread, 0) ==> WorkLeft(s') < WorkLeft(s))
  {
    hide Inv, Next, HolderLeft, PhaseLeft, CallerLeft, By, ByWorker;
    WorkerStays(s, l, s');
    if s.worker.Busy? {
      NotAway(s);
      var u := s.worker.id;
      WatchStays(s, l, s', u);
      SamePhase(s.worker.phase, s.watches[u], HolderLeft(s), s'.watches[u], HolderLeft(s'));
      if s.worker.phase.Taken? {
        TakenWork(s, l, s');
      }
    }
  }

  lemma SamePhase(phase: Phase, w: Watch, h: nat, w': Watch, h': nat)
    ensures !phase.Taken? && !Failing(phase) ==> PhaseLeft(phase, w', h') == PhaseLeft(phase, w, h)
    ensures phase.Taken? ==> PhaseLeft(phase, w', h') - PhaseLeft(phase, w, h) == CallerLeft(w') - CallerLeft(w)
    ensures phase.Taken? && CallerLeft(w') == CallerLeft(w) ==> (w'.caller.StopSet? <==> w.caller.StopSet?)
  {
  }

  lemma WatchStays(s: State, l: Label, s': State, id: Id)
    requires Next(s, l, s') && id in s.watches
    ensures id in s'.watches
  {
    hide ViewStep, Occurrences, UnderLock, TableAfter, LockAfter;
  }

  lemma TakenWork(s: State, l: Label, s': State)
    requires Inv(s) && Next(s, l, s') && (l.Act? ==> !ByWorker(l.a)) && s.worker.Busy? && s.worker.phase.Taken?
    ensures s.worker.id in s.watches && s.worker.id in s'.watches
    ensures var w, w' := s.watches[s.worker.id], s'.watches[s.worker.id];
            && CallerLeft(w') <= CallerLeft(w)
            && (w.caller.StopSet? && By(s, l, StoppingThread, 0) ==> CallerLeft(w') < CallerLeft(w))
  {
    NotAway(s);
    var u := s.worker.id;
    TakenIsNotGone(ViewOf(s, u), s, u);
    ViewOfNext(s, l, s', u);
    OnlyHolder(s);
    hide Inv, Next, ViewInv, ViewStep, Occurrences;
    if l.Act? && l.id == u {
      CallerLeftFalls(ViewOf(s, u), l.a, ViewOf(s', u));
      if s.watches[u].caller.StopSet? {
        OnlyPost(ViewOf(s, u), l.a, ViewOf(s', u));
      }
    }
  }

  lemma TakenIsNotGone(v: View, s: State, u: Id)
    requires Inv(s) && u in s.watches && v == ViewOf(s, u) && v.phase.Taken?
    ensures !v.w.caller.Deleted?
  {
    assert ViewInv(v);
  }

  lemma OnlyPost(v: View, a: Action, v': View)
    requires ViewStep(v, a, v') && v.w.caller.StopSet?
    ensures !a.SeeEvent? && !a.ResetEvent? && !a.Delete?
  {
  }

  /** A step that neither dooms the wait nor signals its event does not put the end farther away. */
  lemma OthersStep(s: State, l: Label, s': State, id: Id)
    requires Inv(s) && Next(s, l, s') && id in s.watches && Waits(s.watches[id]) && l.id != id
    requires !Doomed(s, id) && id in s'.watches && !Doomed(s', id)
    ensures Waits(s'.watches[id])
    ensures Nearer(s, s', id) || (Same(s, s', id) && Helper(s', id) == Helper(s, id) && !By(s, l, Helper(s, id), id))
  {
    RankStays(s, l, s', id);
    ViewHasWatch(s, id);
    ViewHasWatch(s', id);
    hide Inv, Next, Rank, ViewOf, Occurrences, Ahead, WorkLeft, Hangs;
    if !Closed(s.watches[id]) {
      PositionStep(s, l, s', id);
      if !(l.Act? && ByWorker(l.a)) {
        if AtTable(s) {
          AtTableStep(s, l, s');
        } else {
          OtherWork(s, l, s');
        }
      } else if !l.a.Dequeue? {
        WorkerWorks(s, l, s');
      }
    }
  }

  lemma AtTableStep(s: State, l: Label, s': State)
    requires Inv(s) && Next(s, l, s') && (l.Act? ==> !ByWorker(l.a))
    requires AtTable(s) && !Hangs(s) && !Hangs(s')
    ensures s'.worker == s.worker && WorkLeft(s') <= WorkLeft(s)
    ensures WorkLeft(s') == WorkLeft(s) ==> s'.lock == s.lock && !By(s, l, StoppingThread, 0)
  {
    hide Inv, Next, HolderLeft, Hangs, By, ByWorker, CallerLeft;
    TableWork(s, l, s');
    NotAway(s);
    WatchStays(s, l, s', s.worker.id);
  }

  /** The same for every step: the event is signalled, or the wait goes on and is no farther from its end. */
  lemma NotFarther(s: State, l: Label, s': State, id: Id)
    requires Inv(s) && Next(s, l, s') && id in s.watches && Waits(s.watches[id]) && !Doomed(s, id)
    requires id in s'.watches && !Doomed(s', id)
    ensures || Signalled(s'.watches[id])
            || (Waits(s'.watches[id])
                && (Nearer(s, s', id)
                    || (Same(s, s', id) && Helper(s', id) == Helper(s, id) && !By(s, l, Helper(s, id), id))))
  {
    hide Inv, Next, Helper, By, Same, Doomed, Rank;
    if l.id != id {
      OthersStep(s, l, s', id);
    } else {
      OwnStep(s, l, s', id);
    }
  }

  lemma OwnStep(s: State, l: Label, s': State, id: Id)
    requires Inv(s) && Next(s, l, s') && id in s.watches && Waits(s.watches[id]) && l.id == id
    ensures id in s'.watches && Rank(ViewOf(s', id)) < Rank(ViewOf(s, id))
    ensures Signalled(s'.watches[id]) || Waits(s'.watches[id])
  {
    hide ViewStep, Occurrences, Rank, TableAfter, Listed;
    RankFalls(ViewOf(s, id), l.a, ViewOf(s', id));
  }

  // ---------- Whoever has to move can ----------

  /** The state after a step that turns the view of the watch into `v`. */
  function After(s: State, id: Id, a: Action, v: View): State
    requires id in s.watches
  {
    State(
      match a
      case PostStart => s.port + [id]
      case PostStop => s.port + [id]
      case Complete => s.port + [id]
      case Dequeue => if s.port != [] then s.port[1..] else s.port
      case _ => s.port,
      if ByWorker(a) then Occupied(id, v.phase) else s.worker,
      s.watches[id := v.w],
      TableAfter(s, id, a),
      LockAfter(s, id, a))
  }

  /** Whether it is the turn of the watch in the port, in the worker's hands and under the lock. */
  predicate MayMove(s: State, id: Id, a: Action) {
    && UnderLock(s, id, a)
    && (a.Dequeue? ==> s.worker == Free && s.port != [] && s.port[0] == id)
    && (ByWorker(a) && !a.Dequeue? ==> s.worker.Busy? && s.worker.id == id)
  }

  lemma AfterIsStep(s: State, id: Id, a: Action, v: View)
    requires Inv(s) && id in s.watches && ViewStep(ViewOf(s, id), a, v) && MayMove(s, id, a)
    ensures WatchStep(s, id, a, After(s, id, a, v)) && ViewOf(After(s, id, a, v), id) == v
  {
    hide ViewInv, LockInv, TableAfter, LockAfter, UnderLock;
    AfterHasView(s, id, a, v);
    hide ViewStep, Occurrences;
  }

  lemma AfterHasView(s: State, id: Id, a: Action, v: View)
    requires id in s.watches && ViewStep(ViewOf(s, id), a, v) && (s.worker.Busy? ==> !s.worker.phase.Away?)
    requires a.Dequeue? ==> s.worker == Free && s.port != [] && s.port[0] == id
    requires ByWorker(a) && !a.Dequeue? ==> s.worker.Busy? && s.worker.id == id
    ensures ViewOf(After(s, id, a, v), id) == v
  {
    hide TableAfter, LockAfter;
    OccurrencesAppend(s.port, id, id);
  }

  /** The step is one of the helping agent, it is owed, and it uses no watch that is gone. */
  predicate Helps(s: State, l: Label, id: Id)
    requires id in s.watches
  {
    By(s, l, Helper(s, id), id) && Owed(s, l) && Proper(s, l)
  }

  /** What the worker does next, if no read fails. */
  function WorkersNext(phase: Phase): Action {
    match phase
    case Away => Dequeue
    case Taken => ReadState
    case Chosen(_) => Switch(true)
    case ToReissue => Reissue(true)
    case ToReport => Report
    case _ => Finish
  }

  function WorkersView(v: View): View {
    match v.phase
    case Away => if v.queued > 0 then View(v.w.(dequeues := v.w.dequeues + 1), v.queued - 1, Taken) else v
    case Taken => v.(phase := Chosen(v.w.running))
    case Chosen(state) => View(SwitchStep(v.w, state, true).0, v.queued, SwitchStep(v.w, state, true).1)
    case ToNormal => v.(w := v.w.(running := Normal), phase := ToSignal)
    case ToSignal => v.(w := v.w.(event := true), phase := Away)
    case ToStep2 => v.(w := v.w.(running := StopStep2), phase := Away)
    case ToClear => v.(w := v.w.(error := false), phase := Away)
    case ToReport => v.(phase := ToUnwatch)
    case _ => v.(w := v.w.(pending := true), phase := ToClear)
  }

  lemma WorkersStep(v: View)
    requires v.phase.Away? ==> v.queued > 0
    requires v.phase.Taken? ==> !v.w.caller.StartSet? && !v.w.caller.StopSet?
    requires !v.phase.ToUnwatch?
    ensures ViewStep(v, WorkersNext(v.phase), WorkersView(v))
  {
  }

  lemma NoStartSet(s: State, u: Id)
    requires Inv(s) && u in s.watches
    ensures PhaseOf(s.worker, u).Taken? ==> !s.watches[u].caller.StartSet?
  {
    assert ViewInv(ViewOf(s, u));
  }

  /** What the thread does next that holds the lock of the table and whose event is signalled. */
  function HoldersNext(c: Caller): Action {
    match c
    case WaitStop => SeeEvent
    case StopSeen => ResetEvent
    case _ => Delete
  }

  function HoldersView(v: View): View {
    match v.w.caller
    case WaitStop => v.(w := v.w.(caller := StopSeen))
    case StopSeen => v.(w := v.w.(event := false, caller := Stopped))
    case _ => v.(w := v.w.(caller := Deleted))
  }

  lemma HoldersStep(v: View)
    requires Holding(v.w.caller) && !Unserved(v.w)
    ensures ViewStep(v, HoldersNext(v.w.caller), HoldersView(v))
  {
  }

  lemma NoHolder(s: State, id: Id)
    requires Inv(s) && id in s.watches && s.lock == None
    ensures !Holding(s.watches[id].caller)
  {
    hide ViewInv;
  }

  lemma HeadIsQueued(s: State)
    requires Inv(s) && s.port != []
    ensures s.port[0] in s.watches && ViewOf(s, s.port[0]).queued > 0
  {
    hide ViewInv, LockInv;
    assert s.port[0] in s.port;
  }

  /** The worker goes on with the packet in its hands. */
  lemma WorkerGoesOn(s: State) returns (a: Action, s': State)
    requires Inv(s) && s.worker.Busy? && !Freed(s) && s.worker.id in s.watches
    requires s.worker.phase.Taken? ==> !s.watches[s.worker.id].caller.StopSet?
    requires s.worker.phase.ToUnwatch? ==> s.lock == None
    ensures ByWorker(a) && WatchStep(s, s.worker.id, a, s')
    ensures Owed(s, Act(s.worker.id, a)) && Proper(s, Act(s.worker.id, a))
  {
    var u := s.worker.id;
    var v := ViewOf(s, u);
    NotAway(s);
    var v';
    if s.worker.phase.ToUnwatch? {
      NoHolder(s, u);
      var found := Listed(s.table, u);
      a := Unwatch(found);
      v' := v.(w := if found then v.w.(caller := Deleted) else v.w.(lost := v.w.error), phase := Away);
    } else {
      NoStartSet(s, u);
      a, v' := WorkersNext(v.phase), WorkersView(v);
      WorkersStep(v);
    }
    hide Inv, Occurrences, Listed;
    AfterIsStep(s, u, a, v');
    s' := After(s, u, a, v');
  }

  /** With the worker free, the first packet in the port is taken. */
  lemma WorkerTakes(s: State) returns (id: Id, s': State)
    requires Inv(s) && s.worker == Free && s.port != []
    ensures WatchStep(s, id, Dequeue, s')
  {
    id := s.port[0];
    HeadIsQueued(s);
    var v := ViewOf(s, id);
    WorkersStep(v);
    hide Inv, Occurrences, ViewStep;
    AfterIsStep(s, id, Dequeue, WorkersView(v));
    s' := After(s, id, Dequeue, WorkersView(v));
  }

  /** The thread that holds the lock goes on. */
  lemma HolderGoesOn(s: State) returns (a: Action, s': State)
    requires Inv(s) && s.lock.Some? && s.lock.value in s.watches
    requires !Unserved(s.watches[s.lock.value]) || s.watches[s.lock.value].caller.StopSet?
    ensures WatchStep(s, s.lock.value, a, s')
    ensures a.PostStop? || a.SeeEvent? || a.ResetEvent? || a.Delete?
  {
    HolderIsThere(s);
    var h := s.lock.value;
    var v := ViewOf(s, h);
    var v';
    if v.w.caller.StopSet? {
      a, v' := PostStop, v.(w := v.w.(caller := WaitStop, dequeues := 0), queued := v.queued + 1);
    } else {
      a, v' := HoldersNext(v.w.caller), HoldersView(v);
      HoldersStep(v);
    }
    hide Inv, Occurrences;
    AfterIsStep(s, h, a, v');
    s' := After(s, h, a, v');
  }

  /** The pending read of a watch completes when its handle is closed. */
  lemma ReadGoesOn(s: State, id: Id) returns (s': State)
    requires Inv(s) && id in s.watches && s.watches[id].pending
    ensures WatchStep(s, id, Complete, s')
  {
    hide Inv, Occurrences;
    var v := ViewOf(s, id);
    var v' := v.(w := v.w.(pending := false), queued := v.queued + 1);
    AfterIsStep(s, id, Complete, v');
    s' := After(s, id, Complete, v');
  }

  /** While a wait is not doomed, the agent whose step it needs can take it. */
  lemma HelperCanMove(s: State, id: Id) returns (l: Label, s': State)
    requires Inv(s) && id in s.watches && Waits(s.watches[id]) && !Doomed(s, id)
    ensures Next(s, l, s') && id in s'.watches && Helps(s, l, id) && !Dooms(s, l)
  {
    hide Inv, WatchStep, Hangs, Waits, ViewOf, Unserved, Doomed, Failing, AtTable;
    var a: Action, u: Id;
    HelperFacts(s, id);
    if Helper(s, id) == Reading {
      a, u := Complete, id;
      s' := ReadGoesOn(s, id);
    } else if Helper(s, id) == StoppingThread {
      StopperIsHolder(s, id);
      a, s' := HolderGoesOn(s);
      u := s.lock.value;
    } else if s.worker == Free {
      PacketIsThere(s, id);
      a := Dequeue;
      u, s' := WorkerTakes(s);
    } else {
      NotAway(s);
      a, s' := WorkerGoesOn(s);
      u := s.worker.id;
    }
    l := Act(u, a);
    WatchStays(s, l, s', id);
  }

  lemma HelperFacts(s: State, id: Id)
    requires Inv(s) && id in s.watches && !Doomed(s, id)
    ensures !Freed(s)
    ensures Helper(s, id) == WorkerThread && s.worker.Busy? && s.worker.id in s.watches ==>
              && (s.worker.phase.Taken? ==> !s.watches[s.worker.id].caller.StopSet?)
              && (s.worker.phase.ToUnwatch? ==> s.lock == None)
  {
    hide Inv;
  }

  /** The thread that is waited for holds the lock, and does not itself wait. */
  lemma StopperIsHolder(s: State, id: Id)
    requires Inv(s) && id in s.watches && !Doomed(s, id) && Helper(s, id) == StoppingThread
    ensures s.lock.Some? && s.lock.value in s.watches && Holding(s.watches[s.lock.value].caller)
    ensures !Unserved(s.watches[s.lock.value]) || s.watches[s.lock.value].caller.StopSet?
  {
    OnlyHolder(s);
    if s.lock.Some? {
      HolderIsThere(s);
    }
    hide Inv;
  }

  // ---------- Which waits can end ----------

  /** A step of the helping agent ends the wait, or brings it nearer to its end, and does not doom it. */
  lemma Progress(s: State, id: Id) returns (l: Label, s': State)
    requires Inv(s) && id in s.watches && Waits(s.watches[id]) && !Doomed(s, id)
    ensures Next(s, l, s') && Inv(s') && Helps(s, l, id) && id in s'.watches
    ensures || Signalled(s'.watches[id])
            || (Waits(s'.watches[id]) && !Doomed(s', id) && Nearer(s, s', id))
  {
    hide Inv, Next, Waits, Doomed, Dooms, Nearer, Same, Signalled, Helper, By;
    l, s' := HelperCanMove(s, id);
    NextKeeps(s, l, s');
    if Doomed(s', id) {
      DoomBegins(s, l, s', id);
    }
    NotFarther(s, l, s', id);
  }

  /** From every state in which a wait is not doomed, steps of the helping agents alone end it. */
  lemma {:induction false} WaitEnds(s: State, id: Id)
    requires Inv(s) && id in s.watches && Waits(s.watches[id]) && !Doomed(s, id)
    ensures CanEndByItself(s, id)
    decreases Rank(ViewOf(s, id)), Position(s, id), Work(s, id)
  {
    hide Inv, Next, Waits, Doomed, Rank, Position, Work, ViewOf, Signalled, By, Owed, Proper;
    var l, s' := Progress(s, id);
    if Signalled(s'.watches[id]) {
      assert EndsByItself([s, s'], [l], s, id);
    } else {
      WaitEnds(s', id);
      var ss: seq<State>, ls: seq<Label> :| EndsByItself(ss, ls, s', id);
      StartEarlier(ss, ls, s', id, s, l);
    }
  }

  lemma StartEarlier(ss: seq<State>, ls: seq<Label>, s': State, id: Id, s: State, l: Label)
    requires EndsByItself(ss, ls, s', id) && Next(s, l, s') && Proper(s, l) && Owed(s, l)
    ensures EndsByItself([s] + ss, [l] + ls, s, id)
  {
    hide Next, Signalled, Proper, Owed;
    var ts, ks := [s] + ss, [l] + ls;
    forall i | 0 <= i < |ks|
      ensures Next(ts[i], ks[i], ts[i + 1]) && Proper(ts[i], ks[i]) && Owed(ts[i], ks[i])
    {
      if i > 0 {
        assert ts[i] == ss[i - 1] && ks[i] == ls[i - 1] && ts[i + 1] == ss[i];
      }
    }
  }

  /**
   In every run, a start or a stop that is waited for can still end without using a watch that is
   gone, if and only if the worker does not wait for the lock that a stopping thread holds, nor
   is about to use a watch that is gone, and no re-issued read of the watch failed between the
   return of its start and its entry into the table. It can then end by owed steps alone; the
   directories need not change.
  */
  lemma EndsIff(ss: seq<State>, ls: seq<Label>, id: Id)
    requires IsRun(ss, ls) && Init(ss[0]) && id in ss[|ls|].watches && Waits(ss[|ls|].watches[id])
    ensures CanEnd(ss[|ls|], id) <==> !Doomed(ss[|ls|], id)
    ensures CanEndByItself(ss[|ls|], id) <==> !Doomed(ss[|ls|], id)
  {
    hide Inv, Next, Waits, Doomed;
    InitHolds(ss[0]);
    RunKeepsInv(ss, ls);
    var s := ss[|ls|];
    if !Doomed(s, id) {
      WaitEnds(s, id);
      var ts: seq<State>, ks: seq<Label> :| EndsByItself(ts, ks, s, id);
    } else if CanEnd(s, id) {
      var ts: seq<State>, ks: seq<Label> :| Ends(ts, ks, s, id);
      DoomedForever(ts, ks, id);
      NotBoth(ts[|ks|].watches[id]);
    }
  }

  lemma NotBoth(w: Watch)
    ensures !(Waits(w) && Signalled(w))
  {
  }

  /** In every run: while such a wait is not doomed, the agent whose step it needs can take it, and that helps. */
  lemma NoDeadlock(ss: seq<State>, ls: seq<Label>, id: Id) returns (l: Label, s': State)
    requires IsRun(ss, ls) && Init(ss[0]) && id in ss[|ls|].watches && Waits(ss[|ls|].watches[id])
    requires !Doomed(ss[|ls|], id)
    ensures Next(ss[|ls|], l, s') && Helps(ss[|ls|], l, id) && id in s'.watches
    ensures Signalled(s'.watches[id]) || Nearer(ss[|ls|], s', id)
  {
    hide Inv, Next, Waits, Doomed, Nearer, Helps, Signalled;
    InitHolds(ss[0]);
    RunKeepsInv(ss, ls);
    l, s' := Progress(ss[|ls|], id);
  }

  // ---------- When nothing fails, and when it does ----------

  /** The worker never comes to the table, and no read is lost. */
  ghost predicate NothingFailed(s: State) {
    !AtTable(s) && forall id :: id in s.watches ==> !s.watches[id].lost
  }

  lemma StepWithoutFailure(s: State, l: Label, s': State)
    requires Next(s, l, s') && NothingFailed(s) && (l.Act? ==> l.a != Reissue(false))
    ensures NothingFailed(s')
  {
    if AtTable(s') {
      ComesToTable(s, l, s');
    }
    hide Occurrences, UnderLock, TableAfter, LockAfter;
    if l.Act? {
      NothingLost(ViewOf(s, l.id), l.a, ViewOf(s', l.id));
    }
  }

  lemma NothingLost(v: View, a: Action, v': View)
    requires ViewStep(v, a, v') && !v.phase.ToUnwatch?
    ensures v'.w.lost == v.w.lost
  {
    hide CallerStep;
    if !ByWorker(a) && !a.Complete? {
      CallersLoseNothing(v, a, v');
    }
  }

  lemma CallersLoseNothing(v: View, a: Action, v': View)
    requires !ByWorker(a) && !a.Complete? && CallerStep(v, a, v')
    ensures v'.w.lost == v.w.lost
  {
  }

  /** As long as no re-issued read fails, every wait can end, in every run. */
  lemma {:induction false} NoFailureNoDoom(ss: seq<State>, ls: seq<Label>)
    requires IsRun(ss, ls) && Init(ss[0])
    requires forall i :: 0 <= i < |ls| && ls[i].Act? ==> ls[i].a != Reissue(false)
    ensures NothingFailed(ss[|ls|]) && forall id :: id in ss[|ls|].watches ==> !Doomed(ss[|ls|], id)
  {
    hide Next;
    if |ls| > 0 {
      var n := |ls| - 1;
      NoFailureNoDoom(ss[..|ls|], ls[..n]);
      StepWithoutFailure(ss[n], ls[n], ss[|ls|]);
    }
  }
}
