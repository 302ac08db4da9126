/**
 The start and stop handshake of `BaseLayer/DirectoryChanges.cpp` between the threads that
 watch and unwatch directories and the worker thread on the completion port.

 A state is what all threads share and where each of them is. A step is one action of one
 thread, or the completion of a read. The critical section of a watch is held by its caller
 from the write of the running state until the packet is posted; the worker reads the running
 state only while it is free. A caller that stops a watch holds the lock of the table from
 finding the watch to deleting it. Every read may fail, the first one and one that is re-issued;
 after that one the worker reports the error, then takes the watch out of the table and deletes
 it, under the same lock. Both reads leave their error in the field that a start returns.

 A watch is known by its address, which a new watch may take over from a deleted one.
*/
module DirectoryWatch {
  import opened Optional
  import opened WatchTable

  datatype Running = NotSet | StartMonitoring | Normal | Stop | StopStep2

  /** Where the caller that starts and stops a watch is. */
  datatype Caller =
    | Created
    | StartSet      // the state says START, the packet is not posted yet
    | WaitStart     // waits for the event
    | StartSeen     // the event was signalled, not reset yet
    | StartReset    // about to return the error field
    | Started       // not in the table yet
    | Watching
    | StartFailed   // an error was returned: the watch is about to be deleted
    | StopSet       // the state says STOP, the packet is not posted yet
    | WaitStop
    | StopSeen
    | Stopped
    | Deleted

  /**
   `error` says whether the field with the error of the last read holds one.

   `dequeues` is auxiliary: how often the worker took the watch off the port since the stop
   packet was posted. So is `lost`: a re-issued read has failed, and the watch was not in the table.
  */
  datatype Watch = Watch(
    running: Running, open: bool, pending: bool, event: bool, error: bool, caller: Caller, dequeues: nat, lost: bool)

  /** What the worker is doing with a watch. */
  datatype Phase =
    | Away
    | Taken                   // dequeued, the running state not read yet
    | Chosen(state: Running)  // the running state read; at the switch
    | ToNormal                // the first read is issued
    | ToSignal                // about to signal the event
    | ToReissue               // the changes are processed
    | ToClear                 // the read is re-issued; about to clear the error field
    | ToReport                // the re-issued read failed, and the error is stored; about to report it
    | ToUnwatch               // about to take the lock of the table
    | ToStep2                 // the handle is closed

  datatype Worker = Free | Busy(id: Id, phase: Phase)

  /** `lock` is the watch that is being stopped by the thread that holds the lock of the table. */
  datatype State = State(port: seq<Id>, worker: Worker, watches: map<Id, Watch>, table: Table, lock: Option<Id>)

  datatype Action =
    | SetStart | PostStart | ReadError | AddWatch | SetStop | PostStop | SeeEvent | ResetEvent | Delete
    | Complete
    | Dequeue | ReadState | Switch(readOk: bool) | Finish | Reissue(readOk: bool) | Report | Unwatch(found: bool)

  /** One watch, the number of its packets in the port, and what the worker does with it. */
  datatype View = View(w: Watch, queued: nat, phase: Phase)

  // ---------- The steps ----------

  /** The caller stops the watch and holds the lock of the table. */
  predicate Holding(c: Caller) {
    c.StopSet? || c.WaitStop? || c.StopSeen? || c.Stopped?
  }

  ghost predicate CallerStep(v: View, a: Action, v': View)
    requires !ByWorker(a) && !a.Complete?
  {
    match a
    case SetStart => v.w.caller.Created? && v' == v.(w := v.w.(running := StartMonitoring, caller := StartSet))
    case PostStart => v.w.caller.StartSet? && v' == v.(w := v.w.(caller := WaitStart), queued := v.queued + 1)
    case AddWatch => v.w.caller.Started? && v' == v.(w := v.w.(caller := Watching))
    case SetStop => v.w.caller.Watching? && v' == v.(w := v.w.(running := Stop, caller := StopSet))
    case PostStop =>
      v.w.caller.StopSet? && v' == v.(w := v.w.(caller := WaitStop, dequeues := 0), queued := v.queued + 1)
    case SeeEvent =>
      && v.w.event
      && ((v.w.caller.WaitStart? && v' == v.(w := v.w.(caller := StartSeen))) ||
          (v.w.caller.WaitStop? && v' == v.(w := v.w.(caller := StopSeen))))
    case ResetEvent =>
      || (v.w.caller.StartSeen? && v' == v.(w := v.w.(event := false, caller := StartReset)))
      || (v.w.caller.StopSeen? && v' == v.(w := v.w.(event := false, caller := Stopped)))
    case ReadError =>
      v.w.caller.StartReset? && v' == v.(w := v.w.(caller := if v.w.error then StartFailed else Started))
    case Delete =>
      (v.w.caller.StartFailed? || v.w.caller.Stopped?) && v' == v.(w := v.w.(caller := Deleted))
  }

  /** A pending read completes, because something changed or because the handle was closed. */
  ghost predicate CompleteStep(v: View, v': View) {
    v.w.pending && v' == v.(w := v.w.(pending := false), queued := v.queued + 1)
  }

  /** The branches of the worker's switch on the running state it has read. */
  function SwitchStep(w: Watch, state: Running, readOk: bool): (Watch, Phase) {
    match state
    case StartMonitoring =>
      if readOk then (w.(pending := true), ToNormal) else (w.(error := true), ToSignal)
    case Stop =>
      if w.open then (w.(open := false), ToStep2) else (w, ToSignal)
    case StopStep2 =>
      if !w.open then (w, ToSignal) else (w.(open := false), Away)
    case Normal => (w, ToReissue)
    case NotSet => (w, Away)
  }

  ghost predicate WorkerStep(v: View, a: Action, v': View)
    requires ByWorker(a)
  {
    match a
    case Dequeue =>
      v.phase.Away? && v.queued > 0 &&
      v' == View(v.w.(dequeues := v.w.dequeues + 1), v.queued - 1, Taken)
    case ReadState =>
      v.phase.Taken? && !v.w.caller.StartSet? && !v.w.caller.StopSet? &&
      v' == v.(phase := Chosen(v.w.running))
    case Switch(ok) =>
      v.phase.Chosen? &&
      v' == View(SwitchStep(v.w, v.phase.state, ok).0, v.queued, SwitchStep(v.w, v.phase.state, ok).1)
    case Finish =>
      || (v.phase.ToNormal? && v' == v.(w := v.w.(running := Normal), phase := ToSignal))
      || (v.phase.ToSignal? && v' == v.(w := v.w.(event := true), phase := Away))
      || (v.phase.ToStep2? && v' == v.(w := v.w.(running := StopStep2), phase := Away))
      || (v.phase.ToClear? && v' == v.(w := v.w.(error := false), phase := Away))
    case Reissue(ok) =>
      v.phase.ToReissue? &&
      v' == if ok then v.(w := v.w.(pending := true), phase := ToClear)
            else v.(w := v.w.(error := true), phase := ToReport)
    case Report => v.phase.ToReport? && v' == v.(phase := ToUnwatch)
    case Unwatch(found) =>
      v.phase.ToUnwatch? && !Holding(v.w.caller) &&
      v' == v.(w := if found then v.w.(caller := Deleted) else v.w.(lost := v.w.error), phase := Away)
  }

  predicate ByWorker(a: Action) {
    a.Dequeue? || a.ReadState? || a.Switch? || a.Finish? || a.Reissue? || a.Report? || a.Unwatch?
  }

  ghost predicate ViewStep(v: View, a: Action, v': View) {
    if ByWorker(a) then WorkerStep(v, a, v')
    else if a.Complete? then CompleteStep(v, v')
    else CallerStep(v, a, v')
  }

  function PhaseOf(worker: Worker, id: Id): Phase {
    if worker.Busy? && worker.id == id then worker.phase else Away
  }

  function Occurrences(port: seq<Id>, id: Id): nat {
    if port == [] then 0 else (if port[0] == id then 1 else 0) + Occurrences(port[1..], id)
  }

  function ViewOf(s: State, id: Id): View
    requires id in s.watches
  {
    View(s.watches[id], Occurrences(s.port, id), PhaseOf(s.worker, id))
  }

  function Occupied(id: Id, phase: Phase): Worker {
    if phase.Away? then Free else Busy(id, phase)
  }

  /** One action on one watch: the port is a queue, and the worker does one thing at a time. */
  ghost predicate WatchStep(s: State, id: Id, a: Action, s': State) {
    && id in s.watches && id in s'.watches
    && s'.watches == s.watches[id := s'.watches[id]]
    && ViewStep(ViewOf(s, id), a, ViewOf(s', id))
    && s'.port == (match a
                   case PostStart => s.port + [id]
                   case PostStop => s.port + [id]
                   case Complete => s.port + [id]
                   case Dequeue => if s.port != [] then s.port[1..] else s.port
                   case _ => s.port)
    && (a.Dequeue? ==> s.worker == Free && s.port != [] && s.port[0] == id)
    && (ByWorker(a) && !a.Dequeue? ==> s.worker.Busy? && s.worker.id == id)
    && s'.worker == (if ByWorker(a) then Occupied(id, ViewOf(s', id).phase) else s.worker)
    && UnderLock(s, id, a)
    && s'.table == TableAfter(s, id, a) && s'.lock == LockAfter(s, id, a)
  }

  /** What is done under the lock of the table: only a listed watch is stopped. */
  predicate UnderLock(s: State, id: Id, a: Action) {
    && (a.AddWatch? || a.SetStop? || a.Unwatch? ==> s.lock == None)
    && (a.SetStop? ==> Listed(s.table, id))
    && (a.Unwatch? ==> a.found == Listed(s.table, id))
  }

  function TableAfter(s: State, id: Id, a: Action): Table
    requires id in s.watches
  {
    if a.AddWatch? then Added(s.table, id)
    else if a.Unwatch? || (a.Delete? && s.watches[id].caller.Stopped?) then Removed(s.table, id)
    else s.table
  }

  function LockAfter(s: State, id: Id, a: Action): Option<Id>
    requires id in s.watches
  {
    if a.SetStop? then Some(id)
    else if a.Delete? && s.watches[id].caller.Stopped? then None
    else s.lock
  }

  const NEW_WATCH := Watch(NotSet, true, false, false, false, Created, 0, false)

  /** A new watch at an address that was never used, or that a deleted watch had. */
  ghost predicate CreateStep(s: State, id: Id, s': State) {
    && (id in s.watches ==> s.watches[id].caller.Deleted?)
    && s' == s.(watches := s.watches[id := NEW_WATCH])
  }

  datatype Label = Create(id: Id) | Act(id: Id, a: Action)

  ghost predicate Next(s: State, l: Label, s': State) {
    match l
    case Create(id) => CreateStep(s, id, s')
    case Act(id, a) => WatchStep(s, id, a, s')
  }

  ghost predicate Init(s: State) {
    s == State([], Free, map[], [], None)
  }

  /** A run: each state follows from the one before it by the step its label names. */
  ghost predicate IsRun(ss: seq<State>, ls: seq<Label>) {
    |ss| == |ls| + 1 && forall i :: 0 <= i < |ls| ==> Next(ss[i], ls[i], ss[i + 1])
  }

  // ---------- The invariant of one watch ----------

  function Tokens(v: View): nat {
    v.queued + if v.w.pending then 1 else 0
  }

  /** The packets of the watch, in the port or still to come; none in the worker's hands. */
  predicate Quiet(v: View) {
    Tokens(v) == 0 && v.phase.Away?
  }

  /** The worker is on its way to unwatch, after a re-issued read has failed. */
  predicate Failing(phase: Phase) {
    phase.ToReport? || phase.ToUnwatch?
  }

  /**
   The worker is not at work on this watch. What it holds may be the address of a watch that
   was deleted: then the error it found is not one of this watch.
  */
  predicate Elsewhere(v: View) {
    v.phase.Away? || (Failing(v.phase) && !v.w.error)
  }

  /** The worker is about to act on the running state NORMAL, or may come to read it. */
  predicate InHand(v: View) {
    v.phase.Taken? || v.phase == Chosen(Normal) || v.phase.ToReissue? || Failing(v.phase)
  }

  /** Exactly `n` packets go round: pending, queued, or in the worker's hands. */
  predicate Circulating(v: View, n: nat) {
    && (v.phase.Away? || v.phase.ToClear? || InHand(v))
    && Tokens(v) + (if InHand(v) then 1 else 0) == n
  }

  /** The packet of the read goes round, unless it is lost. */
  predicate ReadAbout(v: View) {
    if v.w.lost then Quiet(v) else Circulating(v, 1)
  }

  predicate Live(v: View) {
    v.w.open && v.w.running == Normal && ReadAbout(v) && (v.w.error <==> v.w.lost || Failing(v.phase))
  }

  /** The start packet is posted, and the event is not signalled. */
  predicate Starting(v: View) {
    && v.w.open && !v.w.lost
    && if Elsewhere(v) then
         v.w.running == StartMonitoring && !v.w.error && v.queued == 1 && !v.w.pending
       else if v.phase.Taken? || v.phase == Chosen(StartMonitoring) then
         v.w.running == StartMonitoring && !v.w.error && Tokens(v) == 0
       else if v.phase.ToNormal? then
         v.w.running == StartMonitoring && !v.w.error && Tokens(v) == 1
       else
         v.phase.ToSignal? && if v.w.error then v.w.running == StartMonitoring && Tokens(v) == 0
                              else v.w.running == Normal && Tokens(v) == 1
  }

  /** The event of the start was signalled: the first read failed, or it goes round. */
  predicate AfterStart(v: View) {
    v.w.open && if v.w.running == StartMonitoring then v.w.error && !v.w.lost && Quiet(v) else Live(v)
  }

  /** Before the handle is closed: the stop packet and the packet of the read are both about. */
  predicate Stopping(v: View) {
    && v.w.running == Stop && v.w.open && Circulating(v, 2)
    && (v.phase.Away? || v.phase.ToClear? ==> v.queued >= 1)
    && (v.phase == Chosen(Normal) || v.phase.ToReissue? || Failing(v.phase) ==> v.queued == 1)
    && v.w.dequeues <= (if v.phase.Taken? then 1 else 0)
  }

  /** The handle is being closed: one packet is left. */
  predicate Closing(v: View) {
    && v.w.running == Stop && Tokens(v) == 1 && v.w.dequeues <= 1
    && ((v.phase == Chosen(Stop) && v.w.open) || (v.phase.ToStep2? && !v.w.open))
  }

  /** The handle is closed, and the last packet is about. */
  predicate Draining(v: View) {
    && v.w.running == StopStep2 && !v.w.open
    && if v.phase.Away? then Tokens(v) == 1 && v.w.dequeues <= 1
       else (v.phase.Taken? || v.phase == Chosen(StopStep2) || v.phase.ToSignal?) && Tokens(v) == 0 && v.w.dequeues <= 2
  }

  predicate Drained(v: View) {
    v.w.running == StopStep2 && !v.w.open && Quiet(v) && v.w.dequeues <= 2
  }

  /** The stop of a lost watch: its only packet is the stop packet, and no other one will come. */
  predicate StopOfLost(v: View) {
    && !v.w.pending && v.queued + v.w.dequeues == 1
    && (v.queued == 1 <==> v.w.running == Stop && v.phase.Away?)
    && (v.w.running == Stop || (v.w.running == StopStep2 && v.phase.Away?))
    && v.w.open == (v.w.running == Stop && !v.phase.ToStep2?)
    && (v.phase.Away? || v.phase.Taken? || v.phase == Chosen(Stop) || v.phase.ToStep2?)
  }

  predicate StopInv(v: View) {
    if v.w.lost then !v.w.event && StopOfLost(v)
    else if v.w.event then Drained(v)
    else Stopping(v) || Closing(v) || Draining(v)
  }

  predicate ViewInv(v: View) {
    match v.w.caller
    case Created => v.w == NEW_WATCH && Tokens(v) == 0 && Elsewhere(v)
    case StartSet =>
      v.w == NEW_WATCH.(running := StartMonitoring, caller := StartSet) && Tokens(v) == 0 && Elsewhere(v)
    case WaitStart => if v.w.event then AfterStart(v) else Starting(v)
    case StartSeen => v.w.event && AfterStart(v)
    case StartReset => !v.w.event && AfterStart(v)
    case Started => !v.w.event && Live(v)
    case Watching => !v.w.event && Live(v)
    case StartFailed => !v.w.event && v.w.error && Tokens(v) == 0 && (v.phase.Away? || Failing(v.phase))
    case StopSet => !v.w.event && v.w.open && v.w.running == Stop && ReadAbout(v)
    case WaitStop => StopInv(v)
    case StopSeen => v.w.event && Drained(v) && !v.w.lost
    case Stopped => !v.w.event && Quiet(v) && !v.w.lost
    case Deleted => Tokens(v) == 0 && (v.phase.Away? || (Failing(v.phase) && v.w.error))
  }

  lemma CallerKeeps(v: View, a: Action, v': View)
    requires ViewInv(v) && !ByWorker(a) && !a.Complete? && CallerStep(v, a, v')
    ensures ViewInv(v')
  {
    hide ViewInv, CallerStep;
    if a.SetStart? || a.PostStart? || a.ReadError? || a.AddWatch? || a.Delete? {
      StarterKeeps(v, a, v');
    } else {
      StopperKeeps(v, a, v');
    }
  }

  lemma StarterKeeps(v: View, a: Action, v': View)
    requires a.SetStart? || a.PostStart? || a.ReadError? || a.AddWatch? || a.Delete?
    requires ViewInv(v) && CallerStep(v, a, v')
    ensures ViewInv(v')
  {
  }

  lemma StopperKeeps(v: View, a: Action, v': View)
    requires a.SetStop? || a.PostStop? || a.SeeEvent? || a.ResetEvent?
    requires ViewInv(v) && CallerStep(v, a, v')
    ensures ViewInv(v')
  {
  }

  lemma CompleteKeeps(v: View, v': View)
    requires ViewInv(v) && CompleteStep(v, v')
    ensures ViewInv(v')
  {
  }

  lemma DequeueKeeps(v: View, v': View)
    requires ViewInv(v) && WorkerStep(v, Dequeue, v')
    ensures ViewInv(v')
  {
  }

  lemma ReadStateKeeps(v: View, v': View)
    requires ViewInv(v) && WorkerStep(v, ReadState, v')
    ensures ViewInv(v')
  {
  }

  lemma SwitchKeeps(v: View, readOk: bool, v': View)
    requires ViewInv(v) && WorkerStep(v, Switch(readOk), v')
    ensures ViewInv(v')
  {
    hide ViewInv;
    if v.phase == Chosen(StartMonitoring) {
      SwitchKeepsStarting(v, readOk, v');
    } else if v.phase == Chosen(Normal) {
      SwitchKeepsRunning(v, readOk, v');
    } else {
      SwitchKeepsStopping(v, readOk, v');
    }
  }

  lemma SwitchKeepsStarting(v: View, readOk: bool, v': View)
    requires ViewInv(v) && WorkerStep(v, Switch(readOk), v') && v.phase == Chosen(StartMonitoring)
    ensures ViewInv(v')
  {
  }

  lemma SwitchKeepsRunning(v: View, readOk: bool, v': View)
    requires ViewInv(v) && WorkerStep(v, Switch(readOk), v') && v.phase == Chosen(Normal)
    ensures ViewInv(v')
  {
  }

  lemma SwitchKeepsStopping(v: View, readOk: bool, v': View)
    requires ViewInv(v) && WorkerStep(v, Switch(readOk), v')
    requires v.phase != Chosen(StartMonitoring) && v.phase != Chosen(Normal)
    ensures ViewInv(v')
  {
  }

  lemma FinishKeeps(v: View, v': View)
    requires ViewInv(v) && WorkerStep(v, Finish, v')
    ensures ViewInv(v')
  {
    hide ViewInv;
    match v.phase
    case ToNormal => StartGoesOn(v, v');
    case ToSignal => SignalKeeps(v, v');
    case ToStep2 => StopGoesOn(v, v');
    case _ => ClearKeeps(v, v');
  }

  lemma StartGoesOn(v: View, v': View)
    requires ViewInv(v) && v.phase.ToNormal? && v' == v.(w := v.w.(running := Normal), phase := ToSignal)
    ensures ViewInv(v')
  {
  }

  lemma SignalKeeps(v: View, v': View)
    requires ViewInv(v) && v.phase.ToSignal? && v' == v.(w := v.w.(event := true), phase := Away)
    ensures ViewInv(v')
  {
  }

  lemma StopGoesOn(v: View, v': View)
    requires ViewInv(v) && v.phase.ToStep2? && v' == v.(w := v.w.(running := StopStep2), phase := Away)
    ensures ViewInv(v')
  {
  }

  lemma ClearKeeps(v: View, v': View)
    requires ViewInv(v) && v.phase.ToClear? && v' == v.(w := v.w.(error := false), phase := Away)
    ensures ViewInv(v')
  {
  }

  lemma ReissueKeeps(v: View, readOk: bool, v': View)
    requires ViewInv(v) && WorkerStep(v, Reissue(readOk), v')
    ensures ViewInv(v')
  {
  }

  lemma ReportKeeps(v: View, v': View)
    requires ViewInv(v) && WorkerStep(v, Report, v')
    ensures ViewInv(v')
  {
  }

  lemma UnwatchKeeps(v: View, found: bool, v': View)
    requires ViewInv(v) && WorkerStep(v, Unwatch(found), v') && (found ==> InTable(v.w.caller))
    ensures ViewInv(v')
  {
  }

  lemma WorkerKeeps(v: View, a: Action, v': View)
    requires ViewInv(v) && ByWorker(a) && WorkerStep(v, a, v') && (a == Unwatch(true) ==> InTable(v.w.caller))
    ensures ViewInv(v')
  {
    hide ViewInv, WorkerStep;
    match a
    case Dequeue => DequeueKeeps(v, v');
    case ReadState => ReadStateKeeps(v, v');
    case Switch(readOk) => SwitchKeeps(v, readOk, v');
    case Finish => FinishKeeps(v, v');
    case Reissue(readOk) => ReissueKeeps(v, readOk, v');
    case Report => ReportKeeps(v, v');
    case Unwatch(found) => UnwatchKeeps(v, found, v');
  }

  // ---------- The invariant of a state ----------

  ghost predicate Inv(s: State) {
    && (forall id :: id in s.watches ==> ViewInv(ViewOf(s, id)))
    && (forall id :: id in s.port ==> id in s.watches)
    && (s.worker.Busy? ==> s.worker.id in s.watches && !s.worker.phase.Away?)
    && LockInv(s)
  }

  /** Whoever stops a watch holds the lock, and only watches that run or are being stopped are in the table. */
  ghost predicate LockInv(s: State) {
    && (forall id :: id in s.watches ==> (Holding(s.watches[id].caller) <==> s.lock == Some(id)))
    && (s.lock.Some? ==> s.lock.value in s.watches && Listed(s.table, s.lock.value))
    && (forall id :: Listed(s.table, id) ==> id in s.watches && InTable(s.watches[id].caller))
  }

  predicate InTable(c: Caller) {
    c.Watching? || Holding(c)
  }

  /** The table gains at most the watch that is added, and loses all watches when one is taken out. */
  lemma TableStep(s: State, id: Id, a: Action, x: Id)
    requires id in s.watches && UnderLock(s, id, a)
    ensures Listed(TableAfter(s, id, a), x) ==> Listed(s.table, x) || (a.AddWatch? && x == id)
    ensures a.AddWatch? && x == id ==> Listed(TableAfter(s, id, a), x)
    ensures TableAfter(s, id, a) != s.table && !a.AddWatch? ==> !Listed(TableAfter(s, id, a), x)
    ensures Listed(s.table, id) && (a.Unwatch? || (a.Delete? && s.watches[id].caller.Stopped?)) ==>
              !Listed(TableAfter(s, id, a), x)
  {
    hide Listed, Added, Removed;
    AddedLists(s.table, id, x);
    if Listed(s.table, id) {
      RemovedForgetsAll(s.table, id, x);
    }
    RemovedNothing(s.table, id);
  }

  lemma RemovedNothing(t: Table, id: Id)
    ensures !Listed(t, id) ==> Removed(t, id) == t
  {
  }

  /** How a step moves the caller of its watch. */
  lemma CallerMoves(v: View, a: Action, v': View)
    requires ViewStep(v, a, v')
    ensures Holding(v'.w.caller) == (a.SetStop? || (!a.Delete? && Holding(v.w.caller)))
    ensures InTable(v'.w.caller) ==
            (a.AddWatch? || (!a.Delete? && !(a.Unwatch? && a.found) && InTable(v.w.caller)))
    ensures a.Delete? ==> v.w.caller.StartFailed? || v.w.caller.Stopped?
  {
  }

  lemma LockKeeps(s: State, id: Id, a: Action, s': State)
    requires Inv(s) && WatchStep(s, id, a, s')
    ensures LockInv(s')
  {
    CallerMoves(ViewOf(s, id), a, ViewOf(s', id));
    hide Listed, Added, Removed, ViewInv, ViewStep, Occurrences, TableAfter;
    forall x
      ensures Listed(s'.table, x) ==> x in s'.watches && InTable(s'.watches[x].caller)
    {
      TableStep(s, id, a, x);
    }
    if s.lock.Some? {
      TableStep(s, id, a, s.lock.value);
    }
    TableStep(s, id, a, id);
  }

  lemma {:induction false} OccurrencesAppend(port: seq<Id>, x: Id, id: Id)
    ensures Occurrences(port + [x], id) == Occurrences(port, id) + if x == id then 1 else 0
  {
    if port == [] {
      assert port + [x] == [x] && [x][1..] == [];
    } else {
      assert (port + [x])[1..] == port[1..] + [x];
      OccurrencesAppend(port[1..], x, id);
    }
  }

  lemma {:induction false} OccursIffIn(port: seq<Id>, id: Id)
    ensures Occurrences(port, id) > 0 <==> id in port
  {
    if port != [] {
      assert port == [port[0]] + port[1..];
      OccursIffIn(port[1..], id);
    }
  }

  /** A step of one watch leaves every other watch, its packets and the work on it alone. */
  lemma OthersKeep(s: State, id: Id, a: Action, s': State, other: Id)
    requires Inv(s) && WatchStep(s, id, a, s') && other in s.watches && other != id
    ensures other in s'.watches && ViewOf(s', other) == ViewOf(s, other)
  {
    OccurrencesAppend(s.port, id, other);
  }

  lemma ViewKeeps(v: View, a: Action, v': View)
    requires ViewInv(v) && ViewStep(v, a, v') && (a == Unwatch(true) ==> InTable(v.w.caller))
    ensures ViewInv(v')
  {
    hide ViewInv, CallerStep, CompleteStep, WorkerStep;
    if ByWorker(a) {
      WorkerKeeps(v, a, v');
    } else if a.Complete? {
      CompleteKeeps(v, v');
    } else {
      CallerKeeps(v, a, v');
    }
  }

  lemma WatchStepKeeps(s: State, id: Id, a: Action, s': State)
    requires Inv(s) && WatchStep(s, id, a, s')
    ensures Inv(s')
  {
    hide ViewInv, ViewStep, Occurrences, Listed, TableAfter;
    ViewKeeps(ViewOf(s, id), a, ViewOf(s', id));
    forall other | other in s'.watches
      ensures ViewInv(ViewOf(s', other))
    {
      if other != id {
        OthersKeep(s, id, a, s', other);
      }
    }
    LockKeeps(s, id, a, s');
  }

  /**
   A new watch at a deleted one's address gets none of its packets: there are none. The worker
   may still hold the address, but only after a re-issued read of the deleted watch has failed.
  */
  lemma CreateKeeps(s: State, id: Id, s': State)
    requires Inv(s) && CreateStep(s, id, s')
    ensures Inv(s')
  {
    OccursIffIn(s.port, id);
    assert id in s.watches ==> ViewInv(ViewOf(s, id));
    forall other | other in s'.watches
      ensures ViewInv(ViewOf(s', other))
    {
      assert other != id ==> ViewOf(s', other) == ViewOf(s, other);
    }
  }

  lemma InitHolds(s: State)
    requires Init(s)
    ensures Inv(s)
  {
  }

  /** Every state of every run satisfies the invariant. */
  lemma {:induction false} RunKeepsInv(ss: seq<State>, ls: seq<Label>)
    requires IsRun(ss, ls) && Inv(ss[0])
    ensures Inv(ss[|ls|])
  {
    hide Inv, Next;
    if |ls| > 0 {
      var n := |ls| - 1;
      RunKeepsInv(ss[..|ls|], ls[..n]);
      assert Next(ss[n], ls[n], ss[|ls|]);
      NextKeeps(ss[n], ls[n], ss[|ls|]);
    }
  }

  lemma NextKeeps(s: State, l: Label, s': State)
    requires Inv(s) && Next(s, l, s')
    ensures Inv(s')
  {
    hide Inv, WatchStep, CreateStep;
    match l
    case Create(id) => CreateKeeps(s, id, s');
    case Act(id, a) => WatchStepKeeps(s, id, a, s');
  }

  // ---------- What the handshake is for ----------

  /** The event of a stop is signalled, or seen; or the start failed. The watch may be deleted next. */
  predicate Over(w: Watch) {
    || (w.caller.WaitStop? && w.event)
    || w.caller.StopSeen? || w.caller.Stopped? || w.caller.StartFailed? || w.caller.Deleted?
  }

  /** A read is issued only on an open handle, and the handle is closed when the caller sees the stop. */
  lemma HandleIsOpenWhenReading(ss: seq<State>, ls: seq<Label>, id: Id)
    requires IsRun(ss, ls) && Init(ss[0]) && id in ss[|ls|].watches
    ensures var v := ViewOf(ss[|ls|], id);
            && (v.phase.ToReissue? || v.phase == Chosen(StartMonitoring) ==> v.w.open)
            && (v.w.caller.StopSeen? ==> !v.w.open)
  {
    RunKeepsInv(ss, ls);
    assert ViewInv(ViewOf(ss[|ls|], id));
  }

  /** The `else` branches of the two stop states and the default branch are never taken. */
  lemma FallbacksAreDead(ss: seq<State>, ls: seq<Label>, id: Id)
    requires IsRun(ss, ls) && Init(ss[0]) && id in ss[|ls|].watches && PhaseOf(ss[|ls|].worker, id).Chosen?
    ensures var v := ViewOf(ss[|ls|], id);
            && (v.phase.state == Stop ==> v.w.open)
            && (v.phase.state == StopStep2 ==> !v.w.open)
            && v.phase.state != NotSet
  {
    RunKeepsInv(ss, ls);
    assert ViewInv(ViewOf(ss[|ls|], id));
  }

  /**
   After the stop packet is posted the worker takes the watch off the port at most twice, and
   when it is done with the second one the event is signalled.
  */
  lemma TwoDequeuesAreEnough(ss: seq<State>, ls: seq<Label>, id: Id)
    requires IsRun(ss, ls) && Init(ss[0]) && id in ss[|ls|].watches && ss[|ls|].watches[id].caller.WaitStop?
    ensures var v := ViewOf(ss[|ls|], id);
            && v.w.dequeues <= 2
            && (v.w.dequeues == 2 && v.phase.Away? ==> v.w.event)
  {
    RunKeepsInv(ss, ls);
    assert ViewInv(ViewOf(ss[|ls|], id));
  }

  /**
   The worker deletes a watch only while no caller is at work on it, and after a read of that watch
   failed; and then the watch is out of the table.
  */
  lemma WorkerDeletesIdle(ss: seq<State>, ls: seq<Label>, id: Id, s': State)
    requires IsRun(ss, ls) && Init(ss[0]) && Next(ss[|ls|], Act(id, Unwatch(true)), s')
    ensures ss[|ls|].watches[id].caller.Watching? && !ss[|ls|].watches[id].pending && id !in ss[|ls|].port
    ensures ss[|ls|].watches[id].error && s'.watches[id].caller.Deleted? && !Listed(s'.table, id)
  {
    RunKeepsInv(ss, ls);
    OccursIffIn(ss[|ls|].port, id);
    assert ViewInv(ViewOf(ss[|ls|], id));
  }

  // ---------- What a stop does to the other watches ----------

  /** When a watch has been stopped, no watch is in the table any more. */
  lemma StopForgetsAll(ss: seq<State>, ls: seq<Label>, id: Id, s': State, other: Id)
    requires IsRun(ss, ls) && Init(ss[0]) && Next(ss[|ls|], Act(id, Delete), s')
    requires ss[|ls|].watches[id].caller.Stopped?
    ensures !Listed(s'.table, other)
  {
    hide Inv, Next, Listed;
    InitHolds(ss[0]);
    RunKeepsInv(ss, ls);
    TableIsEmptied(ss[|ls|], id, s', other);
  }

  lemma TableIsEmptied(s: State, id: Id, s': State, other: Id)
    requires Inv(s) && Next(s, Act(id, Delete), s') && s.watches[id].caller.Stopped?
    ensures !Listed(s'.table, other)
  {
    hide ViewInv, Occurrences, Listed, TableAfter, CallerStep;
    TableStep(s, id, Delete, other);
  }

  /** A running watch that is not in the table is never stopped: it goes on running in every continuation. */
  lemma {:induction false} ForgottenForever(ss: seq<State>, ls: seq<Label>, id: Id)
    requires IsRun(ss, ls) && Inv(ss[0])
    requires id in ss[0].watches && ss[0].watches[id].caller.Watching? && !Listed(ss[0].table, id)
    ensures id in ss[|ls|].watches && ss[|ls|].watches[id].caller.Watching? && !Listed(ss[|ls|].table, id)
  {
    hide Inv, Next, Listed;
    if |ls| > 0 {
      var n := |ls| - 1;
      ForgottenForever(ss[..|ls|], ls[..n], id);
      RunKeepsInv(ss[..|ls|], ls[..n]);
      ForgottenStays(ss[n], ls[n], ss[|ls|], id);
    }
  }

  lemma ForgottenStays(s: State, l: Label, s': State, id: Id)
    requires Inv(s) && Next(s, l, s')
    requires id in s.watches && s.watches[id].caller.Watching? && !Listed(s.table, id)
    ensures id in s'.watches && s'.watches[id].caller.Watching? && !Listed(s'.table, id)
  {
    hide ViewInv, Occurrences, Listed, TableAfter, ViewStep, LockInv;
    if l.Act? {
      TableStep(s, l.id, l.a, id);
      if l.id != id {
        OthersKeep(s, l.id, l.a, s', id);
      } else {
        GoesOnRunning(ViewOf(s, id), l.a, ViewOf(s', id));
      }
    }
  }

  lemma GoesOnRunning(v: View, a: Action, v': View)
    requires ViewStep(v, a, v') && v.w.caller.Watching? && !a.SetStop? && a != Unwatch(true)
    ensures v'.w.caller.Watching? && !a.AddWatch?
  {
    hide CallerStep, WorkerStep;
    if ByWorker(a) {
      WorkerLetsRun(v, a, v');
    } else if !a.Complete? {
      CallerLetsRun(v, a, v');
    }
  }

  lemma WorkerLetsRun(v: View, a: Action, v': View)
    requires ByWorker(a) && WorkerStep(v, a, v') && a != Unwatch(true)
    ensures v'.w.caller == v.w.caller
  {
  }

  lemma CallerLetsRun(v: View, a: Action, v': View)
    requires !ByWorker(a) && !a.Complete? && CallerStep(v, a, v') && v.w.caller.Watching?
    ensures a.SetStop?
  {
  }

  // ---------- A start or a stop comes to its end ----------

  predicate Waits(w: Watch) {
    (w.caller.WaitStart? || w.caller.WaitStop?) && !w.event
  }

  /** An upper bound on the steps of a watch that is waited for, until its event is signalled. */
  function Rank(v: View): (r: nat)
  {
    var read := if v.w.pending then 1 else 0;
    if v.w.event then 0
    else if v.w.caller.WaitStart? then
      match v.phase
      case Away => 7
      case Taken => 6
      case Chosen(_) => 5
      case ToNormal => 3 + read
      case ToReport => 9
      case ToUnwatch => 8
      case _ => 1 + read
    else if v.w.running == Stop then
      match v.phase
      case Away => 20 + read
      case Taken => 15 + read
      case Chosen(state) => if state == Normal then 26 else 12 + read
      case ToReissue => 25
      case ToReport => 24
      case ToUnwatch => 23
      case ToClear => 22 + read
      case _ => 9 + read
    else
      match v.phase
      case Away => 6 + read
      case Taken => 4
      case Chosen(_) => 3
      case _ => 2
  }

  lemma RankFalls(v: View, a: Action, v': View)
    requires ViewInv(v) && Waits(v.w) && ViewStep(v, a, v') && a != Unwatch(true)
    ensures v'.w.caller == v.w.caller && Rank(v') < Rank(v)
  {
    hide Rank, ViewInv, WorkerStep;
    if ByWorker(a) {
      WorkerRankFalls(v, a, v');
    } else {
      OtherRankFalls(v, a, v');
    }
  }

  lemma WorkerRankFalls(v: View, a: Action, v': View)
    requires ViewInv(v) && Waits(v.w) && ByWorker(a) && WorkerStep(v, a, v') && a != Unwatch(true)
    ensures v'.w.caller == v.w.caller && Rank(v') < Rank(v)
  {
    hide ViewInv, WorkerStep, Rank;
    if a.Switch? {
      SwitchRankFalls(v, a.readOk, v');
    } else {
      RankFallsElsewhere(v, a, v');
    }
  }

  lemma SwitchRankFalls(v: View, readOk: bool, v': View)
    requires ViewInv(v) && Waits(v.w) && WorkerStep(v, Switch(readOk), v')
    ensures v'.w.caller == v.w.caller && Rank(v') < Rank(v)
  {
  }

  lemma RankFallsElsewhere(v: View, a: Action, v': View)
    requires ViewInv(v) && Waits(v.w) && ByWorker(a) && WorkerStep(v, a, v') && !a.Switch? && a != Unwatch(true)
    ensures v'.w.caller == v.w.caller && Rank(v') < Rank(v)
  {
  }

  lemma OtherRankFalls(v: View, a: Action, v': View)
    requires ViewInv(v) && Waits(v.w) && !ByWorker(a) && ViewStep(v, a, v')
    ensures v'.w.caller == v.w.caller && Rank(v') < Rank(v)
  {
  }

  function StepsOf(ls: seq<Label>, id: Id): nat {
    if ls == [] then 0 else StepsOf(ls[..|ls| - 1], id) + if ls[|ls| - 1].id == id then 1 else 0
  }

  /**
   However the threads are scheduled, a watch whose start or stop packet is posted takes at most
   26 more steps while its event is not signalled.
  */
  lemma {:induction false} WaitIsBounded(ss: seq<State>, ls: seq<Label>, id: Id)
    requires IsRun(ss, ls) && Inv(ss[0])
    requires id in ss[|ls|].watches
    requires forall i :: 0 <= i < |ls| ==> id in ss[i].watches && Waits(ss[i].watches[id])
    ensures id in ss[0].watches
    ensures StepsOf(ls, id) + Rank(ViewOf(ss[|ls|], id)) <= Rank(ViewOf(ss[0], id)) <= 26
  {
    hide Inv, Next, Rank, ViewOf, Waits;
    if |ls| > 0 {
      var n := |ls| - 1;
      WaitIsBounded(ss[..|ls|], ls[..n], id);
      RunKeepsInv(ss[..|ls|], ls[..n]);
      assert Next(ss[n], ls[n], ss[|ls|]);
      RankStep(ss[n], ls[n], ss[|ls|], id);
    } else {
      RankBound(ViewOf(ss[0], id));
    }
  }

  lemma RankBound(v: View)
    ensures Rank(v) <= 26
  {
  }

  lemma RankStep(s: State, l: Label, s': State, id: Id)
    requires Inv(s) && Next(s, l, s') && id in s.watches && id in s'.watches
    requires Waits(s.watches[id])
    ensures Rank(ViewOf(s', id)) + (if l.id == id then 1 else 0) <= Rank(ViewOf(s, id))
  {
    hide Rank, Occurrences, ViewInv, ViewStep;
    match l
    case Create(other) =>
      assert ViewOf(s', id) == ViewOf(s, id);
    case Act(other, a) =>
      if other == id {
        RankFalls(ViewOf(s, id), a, ViewOf(s', id));
      } else {
        OthersKeep(s, other, a, s', id);
      }
  }
}
