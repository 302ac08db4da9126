/**
 Lock freedom over whole runs: every retry is paid for by a CAS2 that succeeded, and there are
 no more of those than the nodes that were added allow. So a run with finitely many calls is finite.
*/
module LockFreeQueueProgress {
  import opened LockFreeQueue
  import opened LockFreeQueueRefinement

  /** A thread has gone back to the start of its loop. */
  predicate IsRetry<T(==)>(pc: Pc<T>, pc': Pc<T>) {
    (pc.AddHelp? && pc'.AddReadPushes?) || (pc'.RemReadPops? && !pc.Idle? && !pc.RemReadPops?)
  }

  /** The `Add` calls. */
  function Adds<T>(events: seq<Event<T>>): nat {
    if events == [] then 0
    else Adds(events[..|events| - 1]) + if events[|events| - 1].CallAdd? then 1 else 0
  }

  /** The calls of either kind. */
  function Calls<T>(events: seq<Event<T>>): nat {
    if events == [] then 0
    else
      var e := events[|events| - 1];
      Calls(events[..|events| - 1]) + if e.CallAdd? || e.CallRemove? then 1 else 0
  }

  function PcOf<T>(s: State<T>, t: Tid): Pc<T> {
    if t in s.threads then s.threads[t] else Idle
  }

  /** The steps of one thread, its retries and its calls. */
  ghost function Moves<T>(run: seq<State<T>>, t: Tid): nat {
    if |run| < 2 then 0
    else
      var n := |run| - 1;
      Moves(run[..n], t) + if PcOf(run[n], t) != PcOf(run[n - 1], t) then 1 else 0
  }

  ghost function Retries<T>(run: seq<State<T>>, t: Tid): nat {
    if |run| < 2 then 0
    else
      var n := |run| - 1;
      Retries(run[..n], t) + if IsRetry(PcOf(run[n - 1], t), PcOf(run[n], t)) then 1 else 0
  }

  ghost function CallsOf<T>(run: seq<State<T>>, t: Tid): nat {
    if |run| < 2 then 0
    else
      var n := |run| - 1;
      CallsOf(run[..n], t) + if PcOf(run[n - 1], t).Idle? && !PcOf(run[n], t).Idle? then 1 else 0
  }

  // ---------- What a retry costs ----------

  /** Every retry so far is covered by the counters as the thread has read them. */
  predicate Paid<T>(sh: Shared<T>, pc: Pc<T>, retries: nat) {
    match pc
    case AddReadTail(_, c) => retries <= sh.pops + c
    case AddReadLink(_, c, _) => retries <= sh.pops + c
    case AddCas(_, c, _, _) => retries <= sh.pops + c
    case AddReadTailAgain(_, c, _) => retries <= sh.pops + c
    case AddReadNext(_, c, _, _) => retries <= sh.pops + c
    case AddHelp(_, c, _, _) => retries <= sh.pops + c
    case RemReadPushes(_, cPops) => retries <= cPops + sh.pushes
    case RemReadHead(_, cPops, cPushes) => retries <= cPops + cPushes
    case RemReadNext(_, cPops, cPushes, _) => retries <= cPops + cPushes
    case RemCheckPops(_, cPops, cPushes, _, _) => retries <= cPops + cPushes
    case RemCheckTail(_, cPops, cPushes, _, _) => retries <= cPops + cPushes
    case RemHelp(_, cPops, cPushes, _, _) => retries <= cPops + cPushes
    case RemReadValue(_, cPops, cPushes, _, _) => retries <= cPops + cPushes
    case RemCas(_, cPops, cPushes, _, _, _) => retries <= cPops + cPushes
    case _ => retries <= sh.pops + sh.pushes
  }

  lemma PaidInFull<T>(sh: Shared<T>, pc: Pc<T>, retries: nat)
    requires SharedInv(sh) && LocalInv(sh, pc) && Paid(sh, pc, retries)
    ensures retries <= sh.pops + sh.pushes
  {
    hide SharedInv;
  }

  lemma CountersGrow<T>(s: State<T>, e: Event<T>, s': State<T>)
    requires Next(s, e, s')
    ensures s.sh.pops <= s'.sh.pops && s.sh.pushes <= s'.sh.pushes && s'.threads.Keys == s.threads.Keys
  {
  }

  /** A step of the thread itself: a retry is covered because a counter has grown since it was read. */
  lemma OwnStepPaid<T>(s: State<T>, t: Tid, e: Event<T>, s': State<T>, retries: nat)
    requires Inv(s) && RunStep(s, t, e, s') && Paid(s.sh, s.threads[t], retries)
    ensures Paid(s'.sh, s'.threads[t], retries + if IsRetry(s.threads[t], s'.threads[t]) then 1 else 0)
  {
    hide SharedInv, LocalInv, Exclusive, Paid, IsRetry, Exec;
    RetryMeansProgress(s, t, e, s');
    PaidInFull(s.sh, s.threads[t], retries);
    ExecCounters(s.sh, t, s.threads[t]);
    if IsRetry(s.threads[t], s'.threads[t]) {
      RetryIsPaid(s.sh, s.threads[t], s'.sh, s'.threads[t], retries);
    } else {
      ExecPaid(s.sh, t, s.threads[t], retries);
    }
  }

  lemma RetryIsPaid<T>(sh: Shared<T>, pc: Pc<T>, sh': Shared<T>, pc': Pc<T>, retries: nat)
    requires IsRetry(pc, pc') && Paid(sh, pc, retries) && sh.pops <= sh'.pops
    requires pc.AddHelp? ==> sh'.pushes > pc.cPushes
    requires pc'.RemReadPops? ==>
               && (pc.RemCheckPops? || pc.RemCheckTail? || pc.RemHelp? || pc.RemCas?)
               && sh'.pops + sh'.pushes > pc.cPops + pc.cPushes
    ensures Paid(sh', pc', retries + 1)
  {
  }

  lemma ExecPaid<T>(sh: Shared<T>, t: Tid, pc: Pc<T>, retries: nat)
    requires !pc.Idle? && Paid(sh, pc, retries) && retries <= sh.pops + sh.pushes
    requires !IsRetry(pc, Exec(sh, t, pc).1)
    requires sh.pops <= Exec(sh, t, pc).0.pops && sh.pushes <= Exec(sh, t, pc).0.pushes
    ensures Paid(Exec(sh, t, pc).0, Exec(sh, t, pc).1, retries)
  {
  }

  lemma ExecCounters<T>(sh: Shared<T>, t: Tid, pc: Pc<T>)
    requires !pc.Idle?
    ensures sh.pops <= Exec(sh, t, pc).0.pops && sh.pushes <= Exec(sh, t, pc).0.pushes
  {
  }

  lemma OthersStayPaid<T>(sh: Shared<T>, sh': Shared<T>, pc: Pc<T>, retries: nat)
    requires sh.pops <= sh'.pops && sh.pushes <= sh'.pushes && Paid(sh, pc, retries)
    ensures Paid(sh', pc, retries)
  {
  }

  /** Who moves in a step: one thread, by a call or by a step inside a call. */
  lemma Mover<T>(s: State<T>, e: Event<T>, s': State<T>) returns (t: Tid)
    requires Inv(s) && Next(s, e, s')
    ensures t in s.threads && t in s'.threads && s'.threads == s.threads[t := s'.threads[t]]
    ensures s'.threads[t] != s.threads[t]
    ensures if e.CallAdd? || e.CallRemove? then s.threads[t].Idle? && !s'.threads[t].Idle?
            else !s.threads[t].Idle? && RunStep(s, t, e, s')
  {
    t :| ThreadStep(s, t, e, s');
    if RunStep(s, t, e, s') {
      assert LocalInv(s.sh, s.threads[t]);
      ExecMoves(s.sh, t, s.threads[t]);
    }
    hide Inv;
  }

  lemma ExecMoves<T>(sh: Shared<T>, t: Tid, pc: Pc<T>)
    requires SharedInv(sh) && LocalInv(sh, pc) && !pc.Idle?
    ensures Exec(sh, t, pc).1 != pc && !Exec(sh, t, pc).2.CallAdd? && !Exec(sh, t, pc).2.CallRemove?
  {
    if pc.RemReadValue? {
      assert sh.chain[pc.cPops + 1] in sh.mem;
    }
    hide SharedInv, LocalInv;
  }

  lemma StepPaid<T>(s: State<T>, e: Event<T>, s': State<T>, t: Tid, retries: nat)
    requires Inv(s) && Next(s, e, s') && Paid(s.sh, PcOf(s, t), retries)
    ensures Paid(s'.sh, PcOf(s', t), retries + if IsRetry(PcOf(s, t), PcOf(s', t)) then 1 else 0)
  {
    CountersGrow(s, e, s');
    var u := Mover(s, e, s');
    if u != t {
      OthersStayPaid(s.sh, s'.sh, PcOf(s, t), retries);
    } else if !s.threads[t].Idle? {
      OwnStepPaid(s, t, e, s', retries);
    } else {
      CallIsPaid(s, e, s', t, retries);
    }
    hide Inv, Next, Paid;
  }

  lemma CallIsPaid<T>(s: State<T>, e: Event<T>, s': State<T>, t: Tid, retries: nat)
    requires Next(s, e, s') && t in s.threads && t in s'.threads && s.threads[t].Idle? && s'.threads[t] != s.threads[t]
    requires Paid(s.sh, s.threads[t], retries)
    ensures Paid(s'.sh, s'.threads[t], retries) && !IsRetry(s.threads[t], s'.threads[t])
  {
  }

  /** Over a whole run, the retries of a thread are covered by the counters. */
  lemma {:induction false} RetriesArePaid<T>(run: seq<State<T>>, events: seq<Event<T>>, t: Tid)
    requires IsRun(run, events)
    ensures Paid(run[|events|].sh, PcOf(run[|events|], t), Retries(run, t))
  {
    hide Inv, Next, Paid, IsRetry;
    var n := |events|;
    if n == 0 {
      FirstIsPaid(run[0], t);
    } else {
      RetriesArePaid(run[..n], events[..n - 1], t);
      RunKeepsInv(run, events, n - 1);
      assert Next(run[n - 1], events[n - 1], run[n - 1 + 1]);
      StepPaid(run[n - 1], events[n - 1], run[n], t, Retries(run[..n], t));
    }
  }

  lemma FirstIsPaid<T>(s: State<T>, t: Tid)
    requires Init(s)
    ensures Paid(s.sh, PcOf(s, t), 0)
  {
  }

  // ---------- What there is to pay with ----------

  lemma {:induction false} NodesOfCalls<T>(run: seq<State<T>>, events: seq<Event<T>>)
    requires IsRun(run, events)
    ensures |run[|events|].sh.mem.Keys| == 1 + Adds(events)
  {
    hide Next, Inv;
    var n := |events|;
    if n > 0 {
      NodesOfCalls(run[..n], events[..n - 1]);
      assert Next(run[n - 1], events[n - 1], run[n - 1 + 1]);
      NodesOfStep(run[n - 1], events[n - 1], run[n]);
    }
  }

  /** Only an `Add` call brings a node. */
  lemma NodesOfStep<T>(s: State<T>, e: Event<T>, s': State<T>)
    requires Next(s, e, s')
    ensures |s'.sh.mem.Keys| == |s.sh.mem.Keys| + if e.CallAdd? then 1 else 0
  {
    var t :| ThreadStep(s, t, e, s');
    if RunStep(s, t, e, s') {
      ExecKeepsNodes(s.sh, t, s.threads[t]);
    } else if e.CallAdd? {
      assert s'.sh.mem.Keys == s.sh.mem.Keys + {e.arg};
    }
  }

  lemma ExecKeepsNodes<T>(sh: Shared<T>, t: Tid, pc: Pc<T>)
    requires !pc.Idle?
    ensures Exec(sh, t, pc).0.mem.Keys == sh.mem.Keys && !Exec(sh, t, pc).2.CallAdd?
  {
  }

  lemma {:induction false} ChainFits(chain: seq<Ptr>, nodes: set<Ptr>)
    requires NoRepeats(chain) && forall i :: 0 <= i < |chain| ==> chain[i] in nodes
    ensures |chain| <= |nodes|
  {
    if chain != [] {
      var n := |chain| - 1;
      ChainFits(chain[..n], nodes - {chain[n]});
    }
  }

  /** In every run: the retries of one thread are at most twice the `Add` calls. */
  lemma RetriesAreBounded<T>(run: seq<State<T>>, events: seq<Event<T>>, t: Tid)
    requires IsRun(run, events)
    ensures Retries(run, t) <= 2 * Adds(events)
  {
    hide Next, Init, Retries, Adds, Paid;
    var s := run[|events|];
    RunKeepsInv(run, events, |events|);
    RetriesArePaid(run, events, t);
    NodesOfCalls(run, events);
    CountersFit(s, t, Retries(run, t));
  }

  lemma CountersFit<T>(s: State<T>, t: Tid, retries: nat)
    requires Inv(s) && Paid(s.sh, PcOf(s, t), retries)
    ensures retries + 2 <= 2 * |s.sh.mem.Keys|
  {
    assert LocalInv(s.sh, PcOf(s, t));
    PaidInFull(s.sh, PcOf(s, t), retries);
    ChainFits(s.sh.chain, s.sh.mem.Keys);
    hide Paid, LocalInv;
  }

  // ---------- Steps ----------

  /** The steps to the end of the call or to the next retry. */
  function StepsLeft<T>(pc: Pc<T>): nat {
    match pc
    case Idle => 0
    case AddInit(_) => 8
    case AddReadPushes(_) => 7
    case AddReadTail(_, _) => 6
    case AddReadLink(_, _, _) => 5
    case AddCas(_, _, _, _) => 4
    case AddReadTailAgain(_, _, _) => 3
    case AddReadNext(_, _, _, _) => 2
    case AddHelp(_, _, _, _) => 1
    case AddSwing(_, _, _) => 1
    case RemReadPops(_) => 9
    case RemReadPushes(_, _) => 8
    case RemReadHead(_, _, _) => 7
    case RemReadNext(_, _, _, _) => 6
    case RemCheckPops(_, _, _, _, _) => 5
    case RemCheckTail(_, _, _, _, _) => 4
    case RemHelp(_, _, _, _, _) => 1
    case RemReadValue(_, _, _, _, _) => 3
    case RemCas(_, _, _, _, _, _) => 2
    case RemStore(_, _, _) => 1
  }

  /** One step of a thread uses up one of those, begins a call, or is a retry. */
  lemma StepsFall<T>(s: State<T>, e: Event<T>, s': State<T>, t: Tid)
    requires Inv(s) && Next(s, e, s')
    ensures var pc, pc' := PcOf(s, t), PcOf(s', t);
            (if pc' != pc then 1 else 0) + StepsLeft(pc') <=
            StepsLeft(pc) + (if pc.Idle? && !pc'.Idle? then 10 else 0) + (if IsRetry(pc, pc') then 9 else 0)
  {
    hide Inv;
    var u := Mover(s, e, s');
    if u == t && !s.threads[t].Idle? {
      ExecFalls(s.sh, t, s.threads[t]);
    }
    hide Next, RunStep;
  }

  lemma ExecFalls<T>(sh: Shared<T>, t: Tid, pc: Pc<T>)
    requires !pc.Idle? && Exec(sh, t, pc).1 != pc
    ensures var pc' := Exec(sh, t, pc).1; 1 + StepsLeft(pc') <= StepsLeft(pc) + if IsRetry(pc, pc') then 9 else 0
  {
  }

  lemma {:induction false} MovesAreBounded<T>(run: seq<State<T>>, events: seq<Event<T>>, t: Tid)
    requires IsRun(run, events)
    ensures Moves(run, t) + StepsLeft(PcOf(run[|events|], t)) <= 10 * CallsOf(run, t) + 9 * Retries(run, t)
  {
    hide Inv, Next, IsRetry, StepsLeft;
    var n := |events|;
    if n == 0 {
      FirstIsIdle(run[0], t);
    } else {
      MovesAreBounded(run[..n], events[..n - 1], t);
      RunKeepsInv(run, events, n - 1);
      assert Next(run[n - 1], events[n - 1], run[n - 1 + 1]);
      StepsFall(run[n - 1], events[n - 1], run[n], t);
    }
  }

  lemma FirstIsIdle<T>(s: State<T>, t: Tid)
    requires Init(s)
    ensures PcOf(s, t) == Idle && StepsLeft(PcOf(s, t)) == 0
  {
  }

  // ---------- All threads ----------

  ghost function Sum(ts: set<Tid>, f: Tid -> nat): nat {
    if ts == {} then 0
    else
      var t :| t in ts;
      f(t) + Sum(ts - {t}, f)
  }

  lemma {:induction false} SumAt(ts: set<Tid>, f: Tid -> nat, t: Tid)
    requires t in ts
    ensures Sum(ts, f) == f(t) + Sum(ts - {t}, f)
    decreases |ts|
  {
    var u :| u in ts && Sum(ts, f) == f(u) + Sum(ts - {u}, f);
    if u != t {
      SumAt(ts - {u}, f, t);
      SumAt(ts - {t}, f, u);
      assert ts - {u} - {t} == ts - {t} - {u};
    }
  }

  lemma {:induction false} SumSame(ts: set<Tid>, f: Tid -> nat, g: Tid -> nat)
    requires forall t :: t in ts ==> g(t) == f(t)
    ensures Sum(ts, g) == Sum(ts, f)
    decreases |ts|
  {
    if ts != {} {
      var t :| t in ts;
      SumAt(ts, f, t);
      SumAt(ts, g, t);
      SumSame(ts - {t}, f, g);
    }
  }

  lemma SumBumped(ts: set<Tid>, f: Tid -> nat, g: Tid -> nat, t: Tid, d: nat)
    requires t in ts && g(t) == f(t) + d && forall u :: u in ts && u != t ==> g(u) == f(u)
    ensures Sum(ts, g) == Sum(ts, f) + d
  {
    SumAt(ts, f, t);
    SumAt(ts, g, t);
    SumSame(ts - {t}, f, g);
  }

  lemma {:induction false} SumBound(ts: set<Tid>, f: Tid -> nat, g: Tid -> nat, b: nat)
    requires forall t :: t in ts ==> f(t) <= 10 * g(t) + b
    ensures Sum(ts, f) <= 10 * Sum(ts, g) + b * |ts|
    decreases |ts|
  {
    if ts != {} {
      var t :| t in ts;
      SumAt(ts, f, t);
      SumAt(ts, g, t);
      SumBound(ts - {t}, f, g, b);
      hide Sum;
      OneMore(b, |ts - {t}|, |ts|);
    }
  }

  lemma OneMore(b: nat, m: nat, n: nat)
    requires n == m + 1
    ensures b * n == b * m + b
  {
  }

  lemma {:induction false} SumZero(ts: set<Tid>, f: Tid -> nat)
    requires forall t :: t in ts ==> f(t) == 0
    ensures Sum(ts, f) == 0
    decreases |ts|
  {
    if ts != {} {
      var t :| t in ts;
      SumAt(ts, f, t);
      SumZero(ts - {t}, f);
    }
  }

  /** Every event is a step of one thread, and every call is one of its calls. */
  lemma {:induction false} EventsOfThreads<T>(run: seq<State<T>>, events: seq<Event<T>>)
    requires IsRun(run, events)
    ensures var ts := run[0].threads.Keys;
            && run[|events|].threads.Keys == ts
            && |events| == Sum(ts, t => Moves(run, t)) && Calls(events) == Sum(ts, t => CallsOf(run, t))
  {
    hide Inv, Next, Sum;
    var n, ts := |events|, run[0].threads.Keys;
    if n == 0 {
      SumZero(ts, t => Moves(run, t));
      SumZero(ts, t => CallsOf(run, t));
    } else {
      var front := run[..n];
      EventsOfThreads(front, events[..n - 1]);
      RunKeepsInv(run, events, n - 1);
      assert Next(run[n - 1], events[n - 1], run[n - 1 + 1]);
      var u := Mover(run[n - 1], events[n - 1], run[n]);
      CountersGrow(run[n - 1], events[n - 1], run[n]);
      SumBumped(ts, t => Moves(front, t), t => Moves(run, t), u, 1);
      var e := events[n - 1];
      SumBumped(ts, t => CallsOf(front, t), t => CallsOf(run, t), u, if e.CallAdd? || e.CallRemove? then 1 else 0);
    }
  }

  /**
   In every run: however the threads are scheduled, the steps of all of them are at most ten for
   each call, and eighteen for each thread and each `Add` call.
  */
  lemma StepsAreBounded<T>(run: seq<State<T>>, events: seq<Event<T>>)
    requires IsRun(run, events)
    ensures |events| <= 10 * Calls(events) + 18 * Adds(events) * |run[0].threads|
  {
    hide Next, Init, Sum, Moves, CallsOf, Retries, Calls, Adds, StepsLeft, PcOf;
    EventsOfThreads(run, events);
    var ts, b := run[0].threads.Keys, 18 * Adds(events);
    forall t | t in ts
      ensures Moves(run, t) <= 10 * CallsOf(run, t) + b
    {
      MovesAreBounded(run, events, t);
      RetriesAreBounded(run, events, t);
    }
    SumBound(ts, t => Moves(run, t), t => CallsOf(run, t), b);
    assert |ts| == |run[0].threads|;
  }
}
