/**
 The abstract queue: a sequence of values, on which every call takes effect in one step
 somewhere between its invocation and its return.
*/
module FifoSpec {
  import opened LockFreeQueue

  datatype Op<T> =
    | Ready
    | Adding(item: T)
    | Added
    | Removing(sawEmpty: bool)
    | Removed(item: T)

  datatype Spec<T> = Spec(queue: seq<T>, ops: map<Tid, Op<T>>)

  ghost predicate SpecInit<T>(a: Spec<T>) {
    a.queue == [] && forall t :: t in a.ops ==> a.ops[t] == Ready
  }

  ghost predicate Enqueue<T>(a: Spec<T>, t: Tid, a': Spec<T>) {
    && t in a.ops && a.ops[t].Adding?
    && a' == Spec(a.queue + [a.ops[t].item], a.ops[t := Added])
  }

  ghost predicate Dequeue<T>(a: Spec<T>, t: Tid, a': Spec<T>) {
    && t in a.ops && a.ops[t].Removing? && a.queue != []
    && a' == Spec(a.queue[1..], a.ops[t := Removed(a.queue[0])])
  }

  ghost predicate ObserveEmpty<T>(a: Spec<T>, t: Tid, a': Spec<T>) {
    && t in a.ops && a.ops[t].Removing? && a.queue == []
    && a' == a.(ops := a.ops[t := Removing(true)])
  }

  ghost predicate Internal<T>(a: Spec<T>, t: Tid, a': Spec<T>) {
    Enqueue(a, t, a') || Dequeue(a, t, a') || ObserveEmpty(a, t, a')
  }

  /** `Remove` may return NULL only if the queue was empty at some instant inside the call. */
  ghost predicate SpecNext<T>(a: Spec<T>, e: Event<T>, a': Spec<T>) {
    match e
    case Tau => a' == a || exists t :: Internal(a, t, a')
    case CallAdd(t, _, v) => t in a.ops && a.ops[t] == Ready && a' == a.(ops := a.ops[t := Adding(v)])
    case RetAdd(t) => t in a.ops && a.ops[t] == Added && a' == a.(ops := a.ops[t := Ready])
    case CallRemove(t) => t in a.ops && a.ops[t] == Ready && a' == a.(ops := a.ops[t := Removing(false)])
    case RetEmpty(t) => t in a.ops && a.ops[t] == Removing(true) && a' == a.(ops := a.ops[t := Ready])
    case RetNode(t, _, v) => t in a.ops && a.ops[t] == Removed(v) && a' == a.(ops := a.ops[t := Ready])
  }

  ghost predicate SpecRun<T>(run: seq<Spec<T>>, events: seq<Event<T>>) {
    && |run| == |events| + 1
    && SpecInit(run[0])
    && forall i :: 0 <= i < |events| ==> SpecNext(run[i], events[i], run[i + 1])
  }

  /** The contents of the queue along a run. */
  ghost function Queues<T>(run: seq<Spec<T>>): (qs: seq<seq<T>>) {
    seq(|run|, i requires 0 <= i < |run| => run[i].queue)
  }

  /** The values that entered between consecutive contents, in order. */
  ghost function Entered<T>(qs: seq<seq<T>>): seq<T> {
    if |qs| < 2 then []
    else
      var q, q' := qs[|qs| - 2], qs[|qs| - 1];
      Entered(qs[..|qs| - 1]) + if |q'| > |q| then [q'[|q'| - 1]] else []
  }

  /** The values that left between consecutive contents, in order. */
  ghost function Left<T>(qs: seq<seq<T>>): seq<T> {
    if |qs| < 2 then []
    else
      var q, q' := qs[|qs| - 2], qs[|qs| - 1];
      Left(qs[..|qs| - 1]) + if |q'| < |q| then [q[0]] else []
  }

  ghost predicate QueueStep<T>(q: seq<T>, q': seq<T>) {
    || q' == q
    || (|q'| == |q| + 1 && q' == q + [q'[|q|]])
    || (q != [] && q == [q[0]] + q')
  }

  lemma SpecNextStepsQueue<T>(a: Spec<T>, e: Event<T>, a': Spec<T>)
    requires SpecNext(a, e, a')
    ensures QueueStep(a.queue, a'.queue)
  {
  }

  lemma {:induction false} StepsKeepOrder<T>(qs: seq<seq<T>>)
    requires |qs| > 0 && qs[0] == []
    requires forall i :: 0 <= i < |qs| - 1 ==> QueueStep(qs[i], qs[i + 1])
    ensures Left(qs) + qs[|qs| - 1] == Entered(qs)
  {
    if |qs| > 1 {
      var q, q', front := qs[|qs| - 2], qs[|qs| - 1], qs[..|qs| - 1];
      StepsKeepOrder(front);
      assert QueueStep(qs[|qs| - 2], qs[|qs| - 2 + 1]);
      hide QueueStep, Left, Entered;
      StepKeepsOrder(Left(front), q, q', Entered(front));
      LastStep(qs);
    }
  }

  /** The last step of the two records. */
  lemma LastStep<T>(qs: seq<seq<T>>)
    requires |qs| > 1
    ensures var q, q', front := qs[|qs| - 2], qs[|qs| - 1], qs[..|qs| - 1];
            && Left(qs) == Left(front) + (if |q'| < |q| then [q[0]] else [])
            && Entered(qs) == Entered(front) + (if |q'| > |q| then [q'[|q'| - 1]] else [])
  {
  }

  lemma StepKeepsOrder<T>(left: seq<T>, q: seq<T>, q': seq<T>, entered: seq<T>)
    requires QueueStep(q, q') && left + q == entered
    ensures left + (if |q'| < |q| then [q[0]] else []) + q' == entered + (if |q'| > |q| then [q'[|q'| - 1]] else [])
  {
    if |q'| > |q| {
      assert left + [] + (q + [q'[|q|]]) == (left + q) + [q'[|q|]];
    } else if |q'| < |q| {
      assert left + ([q[0]] + q') == (left + [q[0]]) + q';
    }
  }

  // ---------- What entered and left, told from the calls and returns ----------

  /** The values of the `Add` calls. */
  ghost function Called<T>(events: seq<Event<T>>): multiset<T> {
    if events == [] then multiset{} else Called(events[..|events| - 1]) + CalledBy(events[|events| - 1])
  }

  ghost function CalledBy<T>(e: Event<T>): multiset<T> {
    if e.CallAdd? then multiset{e.item} else multiset{}
  }

  /** The values that `Remove` has returned. */
  ghost function Returned<T>(events: seq<Event<T>>): multiset<T> {
    if events == [] then multiset{} else Returned(events[..|events| - 1]) + ReturnedBy(events[|events| - 1])
  }

  ghost function ReturnedBy<T>(e: Event<T>): multiset<T> {
    if e.RetNode? then multiset{e.item} else multiset{}
  }

  ghost function Coming<T>(op: Op<T>): multiset<T> {
    if op.Adding? then multiset{op.item} else multiset{}
  }

  ghost function Going<T>(op: Op<T>): multiset<T> {
    if op.Removed? then multiset{op.item} else multiset{}
  }

  /** What the calls of all threads have in hand. */
  ghost function InHand<T>(ops: map<Tid, Op<T>>, has: Op<T> -> multiset<T>): multiset<T> {
    if ops == map[] then multiset{}
    else
      var t :| t in ops;
      has(ops[t]) + InHand(ops - {t}, has)
  }

  lemma {:induction false} InHandOf<T>(ops: map<Tid, Op<T>>, has: Op<T> -> multiset<T>, t: Tid)
    requires t in ops
    ensures InHand(ops, has) == has(ops[t]) + InHand(ops - {t}, has)
    decreases |ops|
  {
    var u :| u in ops && InHand(ops, has) == has(ops[u]) + InHand(ops - {u}, has);
    if u != t {
      InHandOf(ops - {u}, has, t);
      InHandOf(ops - {t}, has, u);
      assert ops - {u} - {t} == ops - {t} - {u};
    }
  }

  lemma InHandAfter<T>(ops: map<Tid, Op<T>>, has: Op<T> -> multiset<T>, t: Tid, op: Op<T>)
    requires t in ops
    ensures InHand(ops[t := op], has) + has(ops[t]) == InHand(ops, has) + has(op)
  {
    InHandOf(ops, has, t);
    InHandOf(ops[t := op], has, t);
    assert ops[t := op] - {t} == ops - {t};
  }

  ghost function Gained<T>(q: seq<T>, q': seq<T>): multiset<T> {
    if |q'| > |q| then multiset{q'[|q'| - 1]} else multiset{}
  }

  ghost function Lost<T>(q: seq<T>, q': seq<T>): multiset<T> {
    if |q'| < |q| then multiset{q[0]} else multiset{}
  }

  /** One step: what the queue gains was called for, and what it loses will be returned. */
  lemma StepItems<T>(a: Spec<T>, e: Event<T>, a': Spec<T>)
    requires SpecNext(a, e, a')
    ensures Gained(a.queue, a'.queue) + InHand(a'.ops, Coming) == InHand(a.ops, Coming) + CalledBy(e)
    ensures ReturnedBy(e) + InHand(a'.ops, Going) == InHand(a.ops, Going) + Lost(a.queue, a'.queue)
  {
    hide SpecNext, InHand, Coming, Going, CalledBy, ReturnedBy, Gained, Lost;
    if a' != a {
      var t := Mover(a, e, a');
      var op, op' := a.ops[t], a'.ops[t];
      InHandAfter(a.ops, Coming, t, op');
      InHandAfter(a.ops, Going, t, op');
      Balance(Gained(a.queue, a'.queue), InHand(a'.ops, Coming), InHand(a.ops, Coming), CalledBy(e),
              Coming(op), Coming(op'));
      Balance(ReturnedBy(e), InHand(a'.ops, Going), InHand(a.ops, Going), Lost(a.queue, a'.queue),
              Going(op), Going(op'));
    } else {
      NobodyMoves(a, e);
    }
  }

  lemma Balance<T>(x: multiset<T>, all': multiset<T>, all: multiset<T>, y: multiset<T>,
                   has: multiset<T>, has': multiset<T>)
    requires all' + has == all + has' && x + has' == has + y
    ensures x + all' == all + y
  {
    forall v: T
      ensures (x + all')[v] == (all + y)[v]
    {
      assert (all' + has)[v] == (all + has')[v] && (x + has')[v] == (has + y)[v];
    }
    assert x + all' == all + y;
  }

  lemma NobodyMoves<T>(a: Spec<T>, e: Event<T>)
    requires SpecNext(a, e, a)
    ensures CalledBy(e) == ReturnedBy(e) == Gained(a.queue, a.queue) == Lost(a.queue, a.queue) == multiset{}
  {
  }

  /** The thread whose operation a step changes. */
  lemma Mover<T>(a: Spec<T>, e: Event<T>, a': Spec<T>) returns (t: Tid)
    requires SpecNext(a, e, a') && a' != a
    ensures t in a.ops && t in a'.ops && a'.ops == a.ops[t := a'.ops[t]]
    ensures var op, op' := a.ops[t], a'.ops[t];
            && Gained(a.queue, a'.queue) + Coming(op') == Coming(op) + CalledBy(e)
            && ReturnedBy(e) + Going(op') == Going(op) + Lost(a.queue, a'.queue)
  {
    match e
    case Tau =>
      t :| Internal(a, t, a');
    case CallAdd(u, _, _) => t := u;
    case RetAdd(u) => t := u;
    case CallRemove(u) => t := u;
    case RetEmpty(u) => t := u;
    case RetNode(u, _, _) => t := u;
  }

  lemma {:induction false} NothingInHand<T>(ops: map<Tid, Op<T>>, has: Op<T> -> multiset<T>)
    requires forall t :: t in ops ==> has(ops[t]) == multiset{}
    ensures InHand(ops, has) == multiset{}
    decreases |ops|
  {
    if ops != map[] {
      var t :| t in ops;
      InHandOf(ops, has, t);
      NothingInHand(ops - {t}, has);
    }
  }

  /**
   Over a whole run: the values that entered are those of the `Add` calls, but for calls that have
   not linked theirs yet; and those that left are the returned ones and those about to be.
  */
  lemma {:induction false} ItemsOfCalls<T>(run: seq<Spec<T>>, events: seq<Event<T>>)
    requires SpecRun(run, events)
    ensures var ops := run[|run| - 1].ops;
            && multiset(Entered(Queues(run))) + InHand(ops, Coming) == Called(events)
            && multiset(Left(Queues(run))) == Returned(events) + InHand(ops, Going)
  {
    hide SpecNext, InHand, Entered, Left, CalledBy, ReturnedBy, Gained, Lost;
    if events == [] {
      NothingInHand(run[0].ops, Coming);
      NothingInHand(run[0].ops, Going);
      NothingMoved(Queues(run));
    } else {
      var n := |events| - 1;
      var front, qs := run[..n + 1], Queues(run);
      ItemsOfCalls(front, events[..n]);
      assert SpecNext(run[n], events[n], run[n + 1]);
      StepItems(run[n], events[n], run[n + 1]);
      assert qs[..n + 1] == Queues(front);
      LastItems(qs);
      var e, ops, ops' := events[n], run[n].ops, run[n + 1].ops;
      var q, q' := run[n].queue, run[n + 1].queue;
      Sum(multiset(Entered(Queues(front))), Gained(q, q'), InHand(ops', Coming), InHand(ops, Coming),
          Called(events[..n]), CalledBy(e));
      Sum(Returned(events[..n]), ReturnedBy(e), InHand(ops', Going), InHand(ops, Going),
          multiset(Left(Queues(front))), Lost(q, q'));
    }
  }

  lemma Sum<T>(x: multiset<T>, dx: multiset<T>, h': multiset<T>, h: multiset<T>, y: multiset<T>, dy: multiset<T>)
    requires x + h == y && dx + h' == h + dy
    ensures (x + dx) + h' == y + dy
  {
    assert x + (dx + h') == x + (h + dy);
    assert (x + dx) + h' == x + (dx + h') && (x + h) + dy == x + (h + dy);
  }

  lemma LastItems<T>(qs: seq<seq<T>>)
    requires |qs| > 1
    ensures var q, q', front := qs[|qs| - 2], qs[|qs| - 1], qs[..|qs| - 1];
            && multiset(Entered(qs)) == multiset(Entered(front)) + Gained(q, q')
            && multiset(Left(qs)) == multiset(Left(front)) + Lost(q, q')
  {
    LastStep(qs);
    hide Entered, Left;
  }

  lemma NothingMoved<T>(qs: seq<seq<T>>)
    requires |qs| < 2
    ensures Entered(qs) == [] && Left(qs) == []
  {
  }

  /** First in, first out over a whole run: nothing is lost, duplicated or reordered. */
  lemma FirstInFirstOut<T>(run: seq<Spec<T>>, events: seq<Event<T>>)
    requires SpecRun(run, events)
    ensures Left(Queues(run)) + run[|run| - 1].queue == Entered(Queues(run))
  {
    var qs := Queues(run);
    forall i | 0 <= i < |qs| - 1
      ensures QueueStep(qs[i], qs[i + 1])
    {
      SpecNextStepsQueue(run[i], events[i], run[i + 1]);
    }
    StepsKeepOrder(qs);
  }
}

/** Every run of the lock-free queue is a run of the abstract queue with the same calls and returns. */
module LockFreeQueueRefinement {
  import opened LockFreeQueue
  import opened FifoSpec

  /** The values in the queue: those of the chain nodes past the head. */
  ghost function Values<T>(sh: Shared<T>): (q: seq<T>)
    requires SharedInv(sh)
  {
    seq(|sh.chain| - sh.pops - 1, i requires 0 <= i < |sh.chain| - sh.pops - 1 =>
      assert sh.chain[sh.pops + 1 + i] in sh.mem; sh.mem[sh.chain[sh.pops + 1 + i]].value)
  }

  ghost function AbsOp<T>(sh: Shared<T>, pc: Pc<T>): Op<T>
    requires SharedInv(sh) && LocalInv(sh, pc)
  {
    if pc.Idle? then Ready
    else if pc.AddSwing? then Added
    else if InAdd(pc) then Adding(sh.mem[Pending(pc)].value)
    else if pc.RemStore? then Removed(pc.val)
    else Removing(pc.sawEmpty)
  }

  ghost function Abs<T>(s: State<T>): Spec<T>
    requires Inv(s)
  {
    Spec(Values(s.sh), map t | t in s.threads :: AbsOp(s.sh, s.threads[t]))
  }

  lemma InitRefines<T>(s: State<T>)
    requires Init(s)
    ensures Inv(s) && SpecInit(Abs(s))
  {
    InitInv(s);
  }

  /** A step of another thread does not change what this thread's call has done so far. */
  lemma AbsOpStable<T>(sh: Shared<T>, sh': Shared<T>, own: Ptr, pc: Pc<T>)
    requires SharedInv(sh) && SharedInv(sh') && Grow(sh, sh', own)
    requires LocalInv(sh, pc) && LocalInv(sh', pc)
    ensures AbsOp(sh', pc) == AbsOp(sh, pc)
  {
  }

  /** A step that moves neither the head nor the end of the chain leaves the values alone. */
  lemma ValuesStable<T>(sh: Shared<T>, sh': Shared<T>, own: Ptr)
    requires SharedInv(sh) && SharedInv(sh') && Grow(sh, sh', own)
    requires sh'.pops == sh.pops && sh'.chain == sh.chain
    ensures Values(sh') == Values(sh)
  {
    hide Values, NoRepeats, LinkedAt, SharedInv, Grow;
    ValuesSize(sh);
    ValuesSize(sh');
    forall i | 0 <= i < |Values(sh)|
      ensures Values(sh')[i] == Values(sh)[i]
    {
      ValueStable(sh, sh', own, sh.pops + 1 + i);
      ValueAt(sh, i);
      ValueAt(sh', i);
    }
  }

  lemma ValuesEnqueued<T>(sh: Shared<T>, sh': Shared<T>, n: Ptr)
    requires SharedInv(sh) && SharedInv(sh') && Grow(sh, sh', n) && Unlinked(sh, n)
    requires sh'.pops == sh.pops && sh'.chain == sh.chain + [n]
    ensures Values(sh') == Values(sh) + [sh.mem[n].value]
  {
    forall i | 0 <= i < |sh.chain| - sh.pops - 1
      ensures Values(sh')[i] == Values(sh)[i]
    {
      EnqueuedAt(sh, sh', n, i);
    }
    EnqueuedLast(sh, sh', n);
    hide Values, NoRepeats, LinkedAt, SharedInv, Grow, Unlinked;
    Snoc(Values(sh), Values(sh'), sh.mem[n].value);
  }

  lemma EnqueuedAt<T>(sh: Shared<T>, sh': Shared<T>, n: Ptr, i: nat)
    requires SharedInv(sh) && SharedInv(sh') && Grow(sh, sh', n)
    requires sh'.pops == sh.pops && sh'.chain == sh.chain + [n] && i < |sh.chain| - sh.pops - 1
    ensures i < |Values(sh)| < |Values(sh')| && Values(sh')[i] == Values(sh)[i]
  {
    hide Values, NoRepeats, LinkedAt, SharedInv, Grow;
    ValuesSize(sh);
    ValuesSize(sh');
    ValueStable(sh, sh', n, sh.pops + 1 + i);
    ValueAt(sh, i);
    ValueAt(sh', i);
  }

  lemma EnqueuedLast<T>(sh: Shared<T>, sh': Shared<T>, n: Ptr)
    requires SharedInv(sh) && SharedInv(sh') && Grow(sh, sh', n) && Unlinked(sh, n)
    requires sh'.pops == sh.pops && sh'.chain == sh.chain + [n]
    ensures |Values(sh')| == |Values(sh)| + 1 && Values(sh')[|Values(sh)|] == sh.mem[n].value
  {
    hide Values, NoRepeats, LinkedAt, SharedInv, Grow;
    ValueOfOwn(sh, sh', n);
    ValuesSize(sh);
    ValuesSize(sh');
    ValueAt(sh', |Values(sh)|);
  }

  lemma Snoc<T>(v: seq<T>, v': seq<T>, x: T)
    requires |v'| == |v| + 1 && (forall i :: 0 <= i < |v| ==> v'[i] == v[i]) && v'[|v|] == x
    ensures v' == v + [x]
  {
  }

  lemma ValuesSize<T>(sh: Shared<T>)
    requires SharedInv(sh)
    ensures sh.pops < |sh.chain| && |Values(sh)| == |sh.chain| - sh.pops - 1
  {
  }

  lemma ValueOfOwn<T>(sh: Shared<T>, sh': Shared<T>, n: Ptr)
    requires SharedInv(sh) && SharedInv(sh') && Grow(sh, sh', n) && Unlinked(sh, n)
    ensures n in sh.mem && n in sh'.mem && sh'.mem[n].value == sh.mem[n].value
  {
  }

  lemma ValueAt<T>(sh: Shared<T>, i: nat)
    requires SharedInv(sh) && sh.pops + 1 + i < |sh.chain|
    ensures i < |Values(sh)| && sh.chain[sh.pops + 1 + i] in sh.mem
    ensures Values(sh)[i] == sh.mem[sh.chain[sh.pops + 1 + i]].value
  {
    hide NoRepeats, LinkedAt;
  }

  lemma ValuesDequeued<T>(sh: Shared<T>, sh': Shared<T>)
    requires SharedInv(sh) && SharedInv(sh') && sh.pops + 1 < |sh.chain|
    requires sh'.pops == sh.pops + 1 && sh'.chain == sh.chain && sh'.mem == sh.mem
    ensures Values(sh) == [sh.mem[sh.chain[sh.pops + 1]].value] + Values(sh')
  {
    hide NoRepeats, LinkedAt;
  }

  /** What one step of a thread does to the abstract queue and to its own call. */
  ghost predicate StepRefines<T>(sh: Shared<T>, t: Tid, pc: Pc<T>)
    requires SharedInv(sh) && LocalInv(sh, pc) && !pc.Idle? && StepKeeps(sh, t, pc)
  {
    var (sh', pc', e) := Exec(sh, t, pc);
    var q, q', op, op' := Values(sh), Values(sh'), AbsOp(sh, pc), AbsOp(sh', pc');
    match e
    case Tau =>
      || (q' == q && op' == op)
      || (op.Adding? && q' == q + [op.item] && op' == Added)
      || (op.Removing? && q != [] && q' == q[1..] && op' == Removed(q[0]))
      || (op.Removing? && q == q' == [] && op' == Removing(true))
    case RetAdd(_) => q' == q && op == Added && op' == Ready
    case RetEmpty(_) => q' == q && op == Removing(true) && op' == Ready
    case RetNode(_, _, v) => q' == q && op == Removed(v) && op' == Ready
    case _ => false
  }

  /** The CAS that links the node is the enqueue. */
  lemma AddLinkRefines<T>(sh: Shared<T>, t: Tid, pc: Pc<T>)
    requires SharedInv(sh) && LocalInv(sh, pc) && pc.AddCas? && NextOf(sh, pc.at) == NULL && StepKeeps(sh, t, pc)
    ensures StepRefines(sh, t, pc)
  {
    LinkKeeps(sh, pc.at, pc.node);
    hide Grow, NoRepeats, LinkedAt, Values;
    ValuesEnqueued(sh, Exec(sh, t, pc).0, pc.node);
  }

  lemma AddStepRefines<T>(sh: Shared<T>, t: Tid, pc: Pc<T>)
    requires SharedInv(sh) && LocalInv(sh, pc) && InAdd(pc) && StepKeeps(sh, t, pc)
    ensures StepRefines(sh, t, pc)
  {
    hide Grow, NoRepeats, LinkedAt, Values;
    if pc.AddCas? && NextOf(sh, pc.at) == NULL {
      AddLinkRefines(sh, t, pc);
    } else {
      hide SharedInv;
      ValuesStable(sh, Exec(sh, t, pc).0, Pending(pc));
    }
  }

  lemma RemCasRefines<T>(sh: Shared<T>, t: Tid, pc: Pc<T>)
    requires SharedInv(sh) && LocalInv(sh, pc) && pc.RemCas? && StepKeeps(sh, t, pc)
    requires sh.head == pc.pHead && sh.pops == pc.cPops
    ensures StepRefines(sh, t, pc)
  {
    hide NoRepeats, LinkedAt, Grow;
    ValuesDequeued(sh, Exec(sh, t, pc).0);
  }

  lemma RemReadNextRefines<T>(sh: Shared<T>, t: Tid, pc: Pc<T>)
    requires SharedInv(sh) && LocalInv(sh, pc) && pc.RemReadNext? && StepKeeps(sh, t, pc)
    ensures StepRefines(sh, t, pc)
  {
    assert IsEmpty(sh) ==> Values(sh) == [];
  }

  lemma RemStoreRefines<T>(sh: Shared<T>, t: Tid, pc: Pc<T>)
    requires SharedInv(sh) && LocalInv(sh, pc) && pc.RemStore? && StepKeeps(sh, t, pc)
    ensures StepRefines(sh, t, pc)
  {
    hide SharedInv, Values, Grow;
    ValuesStable(sh, Exec(sh, t, pc).0, NULL);
  }

  lemma RemCheckTailRefines<T>(sh: Shared<T>, t: Tid, pc: Pc<T>)
    requires SharedInv(sh) && LocalInv(sh, pc) && pc.RemCheckTail? && StepKeeps(sh, t, pc)
    ensures StepRefines(sh, t, pc)
  {
    hide SharedInv, Values, Grow;
  }

  lemma RemOtherRefines<T>(sh: Shared<T>, t: Tid, pc: Pc<T>)
    requires SharedInv(sh) && LocalInv(sh, pc) && !pc.Idle? && !InAdd(pc) && StepKeeps(sh, t, pc)
    requires !pc.RemReadNext? && !pc.RemStore? && !pc.RemCheckTail?
    requires !(pc.RemCas? && sh.head == pc.pHead && sh.pops == pc.cPops)
    ensures StepRefines(sh, t, pc)
  {
    hide SharedInv, Values, Grow, AddInv, RemInv;
    ValuesStable(sh, Exec(sh, t, pc).0, NULL);
  }

  lemma RemStepRefines<T>(sh: Shared<T>, t: Tid, pc: Pc<T>)
    requires SharedInv(sh) && LocalInv(sh, pc) && !pc.Idle? && !InAdd(pc) && StepKeeps(sh, t, pc)
    ensures StepRefines(sh, t, pc)
  {
    if pc.RemCas? && sh.head == pc.pHead && sh.pops == pc.cPops {
      RemCasRefines(sh, t, pc);
    } else if pc.RemReadNext? {
      RemReadNextRefines(sh, t, pc);
    } else if pc.RemStore? {
      RemStoreRefines(sh, t, pc);
    } else if pc.RemCheckTail? {
      RemCheckTailRefines(sh, t, pc);
    } else {
      RemOtherRefines(sh, t, pc);
    }
  }

  lemma OtherStable<T>(s: State<T>, s': State<T>, own: Ptr, u: Tid)
    requires Inv(s) && Inv(s') && Grow(s.sh, s'.sh, own)
    requires u in s.threads && u in s'.threads && s'.threads[u] == s.threads[u]
    ensures Abs(s').ops[u] == Abs(s).ops[u]
  {
    AbsOpStable(s.sh, s'.sh, own, s.threads[u]);
  }

  /** A step of one thread leaves every other call where it was. */
  lemma OthersStable<T>(s: State<T>, t: Tid, s': State<T>, own: Ptr)
    requires Inv(s) && Inv(s') && Grow(s.sh, s'.sh, own)
    requires t in s.threads && s'.threads.Keys == s.threads.Keys
    requires forall u :: u in s.threads && u != t ==> s'.threads[u] == s.threads[u]
    ensures Abs(s').ops == Abs(s).ops[t := Abs(s').ops[t]]
  {
    hide Inv, SharedInv, Grow;
    var ops, ops' := Abs(s).ops, Abs(s').ops;
    forall u | u in s.threads && u != t
      ensures ops'[u] == ops[u]
    {
      OtherStable(s, s', own, u);
    }
    assert ops.Keys == s.threads.Keys && ops'.Keys == s'.threads.Keys;
  }

  lemma RunStepRefines<T>(s: State<T>, t: Tid, e: Event<T>, s': State<T>)
    requires Inv(s) && Inv(s') && RunStep(s, t, e, s')
    ensures SpecNext(Abs(s), e, Abs(s'))
  {
    hide SharedInv, Grow, AddInv, RemInv, Values, SpecNext;
    var pc := s.threads[t];
    assert LocalInv(s.sh, pc);
    RunStepKeepsInv(s, t, e, s');
    if InAdd(pc) {
      AddStepKeeps(s.sh, t, pc);
      AddStepRefines(s.sh, t, pc);
    } else {
      RemStepKeeps(s.sh, t, pc);
      RemStepRefines(s.sh, t, pc);
    }
    OthersStable(s, t, s', Pending(pc));
    SpecFromStep(Abs(s), t, e, Abs(s'));
  }

  lemma SpecFromStep<T>(a: Spec<T>, t: Tid, e: Event<T>, a': Spec<T>)
    requires t in a.ops && t in a'.ops && a'.ops == a.ops[t := a'.ops[t]]
    requires var q, q', op, op' := a.queue, a'.queue, a.ops[t], a'.ops[t];
             match e
             case Tau =>
               || (q' == q && op' == op)
               || (op.Adding? && q' == q + [op.item] && op' == Added)
               || (op.Removing? && q != [] && q' == q[1..] && op' == Removed(q[0]))
               || (op.Removing? && q == q' == [] && op' == Removing(true))
             case RetAdd(u) => u == t && q' == q && op == Added && op' == Ready
             case RetEmpty(u) => u == t && q' == q && op == Removing(true) && op' == Ready
             case RetNode(u, _, v) => u == t && q' == q && op == Removed(v) && op' == Ready
             case _ => false
    ensures SpecNext(a, e, a')
  {
    var q, op := a.queue, a.ops[t];
    if e.Tau? {
      if op.Adding? && a'.ops[t] == Added && a'.queue == q + [op.item] {
        assert Internal(a, t, a');
      } else if op.Removing? && q != [] && a'.queue == q[1..] && a'.ops[t] == Removed(q[0]) {
        assert Internal(a, t, a');
      } else if op.Removing? && q == a'.queue == [] && a'.ops[t] == Removing(true) {
        assert Internal(a, t, a');
      } else {
        assert a'.ops == a.ops;
        assert a' == a;
      }
    }
  }

  lemma CallAddRefines<T>(s: State<T>, t: Tid, n: Ptr, v: T, s': State<T>)
    requires Inv(s) && Inv(s') && CallAddStep(s, t, n, v, s')
    ensures SpecNext(Abs(s), CallAdd(t, n, v), Abs(s'))
  {
    hide NoRepeats, LinkedAt, Values, Grow, SharedInv;
    FreshKeeps(s.sh, n, s'.sh.mem[n]);
    ValuesStable(s.sh, s'.sh, n);
    OthersStable(s, t, s', n);
  }

  lemma CallRemoveRefines<T>(s: State<T>, t: Tid, s': State<T>)
    requires Inv(s) && Inv(s') && CallRemoveStep(s, t, s')
    ensures SpecNext(Abs(s), CallRemove(t), Abs(s'))
  {
    hide Inv, Abs, SpecNext;
    RemoveTouchesNothing(s, t, s');
    OthersStable(s, t, s', NULL);
    RemoveBegins(s, t, s');
    SpecCallRemove(Abs(s), t, Abs(s'));
  }

  lemma RemoveTouchesNothing<T>(s: State<T>, t: Tid, s': State<T>)
    requires Inv(s) && CallRemoveStep(s, t, s')
    ensures Grow(s.sh, s'.sh, NULL)
  {
    hide SharedInv, LocalInv, Grow;
    GrowRefl(s.sh, NULL);
  }

  lemma SpecCallRemove<T>(a: Spec<T>, t: Tid, a': Spec<T>)
    requires t in a.ops && t in a'.ops && a.ops[t] == Ready && a'.ops[t] == Removing(false)
    requires a'.queue == a.queue && a'.ops == a.ops[t := a'.ops[t]]
    ensures SpecNext(a, CallRemove(t), a')
  {
  }

  lemma RemoveBegins<T>(s: State<T>, t: Tid, s': State<T>)
    requires Inv(s) && Inv(s') && CallRemoveStep(s, t, s')
    ensures var a, a' := Abs(s), Abs(s');
            && a'.queue == a.queue && t in a.ops && t in a'.ops && a.ops[t] == Ready && a'.ops[t] == Removing(false)
  {
    hide NoRepeats, LinkedAt, Values, SharedInv, LocalInv;
  }

  /** Every step of any thread is a step of the abstract queue with the same event. */
  lemma NextRefines<T>(s: State<T>, e: Event<T>, s': State<T>)
    requires Inv(s) && Next(s, e, s')
    ensures Inv(s') && SpecNext(Abs(s), e, Abs(s'))
  {
    NextKeepsInv(s, e, s');
    var t :| ThreadStep(s, t, e, s');
    if RunStep(s, t, e, s') {
      RunStepRefines(s, t, e, s');
    } else if e.CallAdd? {
      CallAddRefines(s, t, e.arg, e.item, s');
    } else {
      CallRemoveRefines(s, t, s');
    }
  }

  ghost predicate IsRun<T>(run: seq<State<T>>, events: seq<Event<T>>) {
    && |run| == |events| + 1
    && Init(run[0])
    && forall i :: 0 <= i < |events| ==> Next(run[i], events[i], run[i + 1])
  }

  lemma {:induction false} RunKeepsInv<T>(run: seq<State<T>>, events: seq<Event<T>>, i: nat)
    requires IsRun(run, events) && i < |run|
    ensures Inv(run[i])
  {
    if i == 0 {
      InitInv(run[0]);
    } else {
      RunKeepsInv(run, events, i - 1);
      assert Next(run[i - 1], events[i - 1], run[i - 1 + 1]);
      NextKeepsInv(run[i - 1], events[i - 1], run[i]);
    }
  }

  // ---------- What the callers get ----------

  /** The node that was handed back holds the value. */
  ghost predicate HoldsItem<T>(s: State<T>, p: Ptr, v: T) {
    p in s.returned && p in s.sh.mem && s.sh.mem[p].value == v
  }

  lemma ReturnHolds<T>(s: State<T>, e: Event<T>, s': State<T>)
    requires Inv(s) && Next(s, e, s') && e.RetNode?
    ensures HoldsItem(s', e.res, e.item)
  {
    hide SharedInv, AddInv, RemInv, Exclusive;
    var t :| ThreadStep(s, t, e, s');
    var pc := s.threads[t];
    assert pc.RemStore? && LocalInv(s.sh, pc);
    TakenIsThere(s.sh, pc);
  }

  lemma TakenIsThere<T>(sh: Shared<T>, pc: Pc<T>)
    requires SharedInv(sh) && LocalInv(sh, pc) && pc.RemStore?
    ensures pc.pHead in sh.mem
  {
  }

  /** No step of any thread writes to the value of a node that was handed back. */
  lemma ItemStays<T>(s: State<T>, e: Event<T>, s': State<T>, p: Ptr, v: T)
    requires Inv(s) && Next(s, e, s') && HoldsItem(s, p, v)
    ensures HoldsItem(s', p, v)
  {
    hide SharedInv, AddInv, RemInv;
    var t :| ThreadStep(s, t, e, s');
  }

  /** In every run: a node that was handed back holds the value it was handed back with, and keeps it. */
  lemma {:induction false} ReturnedNodeHolds<T>(run: seq<State<T>>, events: seq<Event<T>>, i: nat, j: nat)
    requires IsRun(run, events) && i < j < |run| && events[i].RetNode?
    ensures HoldsItem(run[j], events[i].res, events[i].item)
    decreases j
  {
    hide Inv, Next, HoldsItem;
    RunKeepsInv(run, events, j - 1);
    assert Next(run[j - 1], events[j - 1], run[j - 1 + 1]);
    if i == j - 1 {
      ReturnHolds(run[i], events[i], run[j]);
    } else {
      ReturnedNodeHolds(run, events, i, j - 1);
      ItemStays(run[j - 1], events[j - 1], run[j], events[i].res, events[i].item);
    }
  }

  ghost predicate AbsIs<T>(s: State<T>, a: Spec<T>) {
    Inv(s) && a == Abs(s)
  }

  /**
   Linearizability over whole runs: any interleaving of any number of threads shows its
   callers exactly the events of a run of the abstract queue.
  */
  lemma RunRefines<T>(run: seq<State<T>>, events: seq<Event<T>>) returns (spec: seq<Spec<T>>)
    requires IsRun(run, events)
    ensures SpecRun(spec, events)
    ensures forall i :: 0 <= i < |run| ==> AbsIs(run[i], spec[i])
  {
    hide Inv, Abs, SpecNext, Next, Init, SpecInit;
    forall i | 0 <= i < |run|
      ensures Inv(run[i])
    {
      RunKeepsInv(run, events, i);
    }
    spec := seq(|run|, i requires 0 <= i < |run| => Abs(run[i]));
    InitRefines(run[0]);
    forall i | 0 <= i < |events|
      ensures SpecNext(spec[i], events[i], spec[i + 1])
    {
      NextRefines(run[i], events[i], run[i + 1]);
    }
  }

  /**
   Over a whole run, what left the concrete queue and what is still in it is what entered, in
   order; and what entered and left is what the calls brought and the returns took.
  */
  lemma RunIsFifo<T>(run: seq<State<T>>, events: seq<Event<T>>) returns (spec: seq<Spec<T>>)
    requires IsRun(run, events)
    ensures |spec| == |run| && SpecRun(spec, events)
    ensures forall i :: 0 <= i < |run| ==> AbsIs(run[i], spec[i])
    ensures Inv(run[|run| - 1]) && Left(Queues(spec)) + Values(run[|run| - 1].sh) == Entered(Queues(spec))
    ensures var ops := spec[|run| - 1].ops;
            && multiset(Entered(Queues(spec))) + InHand(ops, Coming) == Called(events)
            && multiset(Left(Queues(spec))) == Returned(events) + InHand(ops, Going)
    ensures forall i, j :: 0 <= i < j < |run| && events[i].RetNode? ==>
              events[i].res in run[j].sh.mem && run[j].sh.mem[events[i].res].value == events[i].item
  {
    forall i, j | 0 <= i < j < |run| && events[i].RetNode?
      ensures events[i].res in run[j].sh.mem && run[j].sh.mem[events[i].res].value == events[i].item
    {
      ReturnedNodeHolds(run, events, i, j);
    }
    hide Next, Init, SpecNext;
    spec := RunRefines(run, events);
    assert AbsIs(run[|run| - 1], spec[|run| - 1]);
    FirstInFirstOut(spec, events);
    ItemsOfCalls(spec, events);
    hide Inv, Abs, SpecRun, InHand, Entered, Left, Called, Returned;
  }

  // ---------- What CAS2 and the counters buy ----------

  /**
   In every reachable state a CAS2 that is about to run either fails or swings its pointer
   to the very next chain node. A pair whose pointer and counter do not belong together,
   or whose counter is old, fails.
  */
  lemma Cas2NeverMisled<T>(s: State<T>, t: Tid)
    requires Inv(s) && t in s.threads
    ensures var pc, sh := s.threads[t], s.sh;
            && (pc.AddHelp? ==>
                  var done := sh.tail == pc.pTail && sh.pushes == pc.cPushes;
                  && (done ==> pc.cPushes + 1 < |sh.chain| && pc.next == sh.chain[pc.cPushes + 1])
                  && (pc.cPushes < sh.pushes || pc.pTail != sh.chain[pc.cPushes] ==> !done))
            && (pc.AddSwing? ==>
                  var done := sh.tail == pc.pTail && sh.pushes == pc.cPushes;
                  && (done ==> pc.cPushes + 1 < |sh.chain| && pc.node == sh.chain[pc.cPushes + 1])
                  && (pc.cPushes < sh.pushes || pc.pTail != sh.chain[pc.cPushes] ==> !done))
            && (pc.RemHelp? ==>
                  var done := sh.tail == pc.pHead && sh.pushes == pc.cPushes;
                  && (done ==> pc.cPushes + 1 < |sh.chain| && pc.pNext == sh.chain[pc.cPushes + 1])
                  && (pc.cPushes < sh.pushes || pc.pHead != sh.chain[pc.cPushes] ==> !done))
            && (pc.RemCas? ==>
                  var done := sh.head == pc.pHead && sh.pops == pc.cPops;
                  && pc.cPops + 1 < |sh.chain| && pc.pNext == sh.chain[pc.cPops + 1]
                  && (done ==> Values(sh) != [] && pc.val == Values(sh)[0])
                  && (pc.cPops < sh.pops ==> !done))
  {
    var pc, sh := s.threads[t], s.sh;
    assert LocalInv(sh, pc);
    if pc.RemHelp? && sh.pushes == pc.cPushes {
      LinkIsNext(sh, pc.pHead, sh.pushes);
    }
  }

  /** The tail is the last node or the one before it, and never behind the head. */
  lemma TailNeverLags<T>(run: seq<State<T>>, events: seq<Event<T>>, i: nat)
    requires IsRun(run, events) && i < |run|
    ensures var sh := run[i].sh;
            && 0 < |sh.chain| && sh.head in sh.chain
            && (sh.tail == sh.chain[|sh.chain| - 1] || (|sh.chain| > 1 && sh.tail == sh.chain[|sh.chain| - 2]))
            && (exists h, k :: 0 <= h <= k < |sh.chain| && sh.chain[h] == sh.head && sh.chain[k] == sh.tail)
  {
    RunKeepsInv(run, events, i);
    var sh := run[i].sh;
    assert sh.chain[sh.pops] == sh.head && sh.chain[sh.pushes] == sh.tail;
  }

  /** No node is handed back twice: two returns of a run return different nodes. */
  lemma {:induction false} ReturnedOnce<T>(run: seq<State<T>>, events: seq<Event<T>>, i: nat, j: nat)
    requires IsRun(run, events) && i < j < |events|
    requires events[i].RetNode? && events[j].RetNode?
    ensures events[i].res != events[j].res
  {
    RunKeepsInv(run, events, j);
    ReturnedStays(run, events, i, j);
    assert Next(run[j], events[j], run[j + 1]);
    var t :| ThreadStep(run[j], t, events[j], run[j + 1]);
    RunStepKeepsInv(run[j], t, events[j], run[j + 1]);
    OwnershipKept(run[j], t, events[j], run[j + 1]);
  }

  lemma {:induction false} ReturnedStays<T>(run: seq<State<T>>, events: seq<Event<T>>, i: nat, j: nat)
    requires IsRun(run, events) && i < j < |run| && events[i].RetNode?
    ensures events[i].res in run[j].returned
    decreases j
  {
    assert Next(run[j - 1], events[j - 1], run[j - 1 + 1]);
    if i < j - 1 {
      ReturnedStays(run, events, i, j - 1);
    }
  }

  /** When `Add` returns, the tail has moved on since the counter was read, by this thread or by another one. */
  lemma AddMovesTail<T>(s: State<T>, t: Tid, s': State<T>)
    requires Inv(s) && RunStep(s, t, RetAdd(t), s')
    ensures s.threads[t].AddSwing? && s'.sh.pushes > s.threads[t].cPushes
    ensures s.sh.pushes == s.threads[t].cPushes ==> s'.sh.tail == s.threads[t].node
  {
    assert LocalInv(s.sh, s.threads[t]);
  }

  /**
   Lock freedom: a thread starts its loop again only if, since it read the counters, some
   CAS2 on the head or the tail has succeeded.
  */
  lemma RetryMeansProgress<T>(s: State<T>, t: Tid, e: Event<T>, s': State<T>)
    requires Inv(s) && RunStep(s, t, e, s')
    ensures s.threads[t].AddHelp? ==>
              s'.threads[t].AddReadPushes? && s'.sh.pushes > s.threads[t].cPushes
    ensures s'.threads[t].RemReadPops? ==>
              && (s.threads[t].RemCheckPops? || s.threads[t].RemCheckTail?
                  || s.threads[t].RemHelp? || s.threads[t].RemCas?)
              && s'.sh.pops + s'.sh.pushes > s.threads[t].cPops + s.threads[t].cPushes
  {
    assert LocalInv(s.sh, s.threads[t]);
  }
}
