/**
 The lock-free queue of `BaseLayer/GPGLockFreeQueue.h` as a step system.

 Every read of a shared variable, every plain store and every CAS or CAS2 is one atomic
 step of one thread. Any number of threads run `Add` and `Remove` in any interleaving.
 Memory is sequentially consistent, counters do not wrap, and a node is given to `Add`
 at most once.
*/
module LockFreeQueue {

  /** The address of a node; `NULL` is the null pointer. */
  type Ptr = nat

  const NULL: Ptr := 0

  type Tid = nat

  datatype Cell<T> = Cell(value: T, next: Ptr)

  /**
   What the threads share. `chain` is an auxiliary record of every node ever linked, the
   constructor's dummy first; the program neither reads it nor branches on it.
  */
  datatype Shared<T> = Shared(
    head: Ptr, pops: nat, tail: Ptr, pushes: nat,
    mem: map<Ptr, Cell<T>>,
    chain: seq<Ptr>)

  /**
   The step a thread takes next, with its local variables. `sawEmpty` is auxiliary: it
   says whether the queue was empty at some read of `pNext` inside this call.
  */
  datatype Pc<T> =
    | Idle
      // Add
    | AddInit(node: Ptr)
    | AddReadPushes(node: Ptr)
    | AddReadTail(node: Ptr, cPushes: nat)
    | AddReadLink(node: Ptr, cPushes: nat, pTail: Ptr)
    | AddCas(node: Ptr, cPushes: nat, pTail: Ptr, at: Ptr)
    | AddReadTailAgain(node: Ptr, cPushes: nat, pTail: Ptr)
    | AddReadNext(node: Ptr, cPushes: nat, pTail: Ptr, at: Ptr)
    | AddHelp(node: Ptr, cPushes: nat, pTail: Ptr, next: Ptr)
    | AddSwing(node: Ptr, cPushes: nat, pTail: Ptr)
      // Remove
    | RemReadPops(sawEmpty: bool)
    | RemReadPushes(sawEmpty: bool, cPops: nat)
    | RemReadHead(sawEmpty: bool, cPops: nat, cPushes: nat)
    | RemReadNext(sawEmpty: bool, cPops: nat, cPushes: nat, pHead: Ptr)
    | RemCheckPops(sawEmpty: bool, cPops: nat, cPushes: nat, pHead: Ptr, pNext: Ptr)
    | RemCheckTail(sawEmpty: bool, cPops: nat, cPushes: nat, pHead: Ptr, pNext: Ptr)
    | RemHelp(sawEmpty: bool, cPops: nat, cPushes: nat, pHead: Ptr, pNext: Ptr)
    | RemReadValue(sawEmpty: bool, cPops: nat, cPushes: nat, pHead: Ptr, pNext: Ptr)
    | RemCas(sawEmpty: bool, cPops: nat, cPushes: nat, pHead: Ptr, pNext: Ptr, val: T)
    | RemStore(cPops: nat, pHead: Ptr, val: T)

  /** What a step shows to the callers of the queue. */
  datatype Event<T> =
    | Tau
    | CallAdd(tid: Tid, arg: Ptr, item: T)
    | RetAdd(tid: Tid)
    | CallRemove(tid: Tid)
    | RetEmpty(tid: Tid)
    | RetNode(tid: Tid, res: Ptr, item: T)

  /** `returned` is auxiliary: the nodes handed back to callers so far. */
  datatype State<T> = State(sh: Shared<T>, threads: map<Tid, Pc<T>>, returned: set<Ptr>)

  function NextOf<T>(sh: Shared<T>, p: Ptr): Ptr {
    if p in sh.mem then sh.mem[p].next else NULL
  }

  function SetNext<T>(sh: Shared<T>, p: Ptr, q: Ptr): Shared<T> {
    if p in sh.mem then sh.(mem := sh.mem[p := sh.mem[p].(next := q)]) else sh
  }

  function SetValue<T>(sh: Shared<T>, p: Ptr, v: T): Shared<T> {
    if p in sh.mem then sh.(mem := sh.mem[p := sh.mem[p].(value := v)]) else sh
  }

  /** CAS2 on the (`_pTail`, `_cPushes`) pair. */
  function Cas2Tail<T>(sh: Shared<T>, p: Ptr, c: nat, q: Ptr): Shared<T> {
    if sh.tail == p && sh.pushes == c then sh.(tail := q, pushes := c + 1) else sh
  }

  predicate IsEmpty<T>(sh: Shared<T>) {
    sh.pops + 1 == |sh.chain|
  }

  /** One step of a thread inside `Add` or `Remove`: new shared state, new local state, event. */
  function Exec<T>(sh: Shared<T>, t: Tid, pc: Pc<T>): (Shared<T>, Pc<T>, Event<T>)
    requires !pc.Idle?
  {
    match pc
    case AddInit(n) => (SetNext(sh, n, NULL), AddReadPushes(n), Tau)
    case AddReadPushes(n) => (sh, AddReadTail(n, sh.pushes), Tau)
    case AddReadTail(n, c) => (sh, AddReadLink(n, c, sh.tail), Tau)
    case AddReadLink(n, c, pTail) => (sh, AddCas(n, c, pTail, sh.tail), Tau)
    case AddCas(n, c, pTail, at) =>
      if NextOf(sh, at) == NULL then
        (SetNext(sh, at, n).(chain := sh.chain + [n]), AddSwing(n, c, pTail), Tau)
      else
        (sh, AddReadTailAgain(n, c, pTail), Tau)
    case AddReadTailAgain(n, c, pTail) => (sh, AddReadNext(n, c, pTail, sh.tail), Tau)
    case AddReadNext(n, c, pTail, at) => (sh, AddHelp(n, c, pTail, NextOf(sh, at)), Tau)
    case AddHelp(n, c, pTail, next) => (Cas2Tail(sh, pTail, c, next), AddReadPushes(n), Tau)
    case AddSwing(n, c, pTail) => (Cas2Tail(sh, pTail, c, n), Idle, RetAdd(t))
    case RemReadPops(e) => (sh, RemReadPushes(e, sh.pops), Tau)
    case RemReadPushes(e, cPops) => (sh, RemReadHead(e, cPops, sh.pushes), Tau)
    case RemReadHead(e, cPops, cPushes) => (sh, RemReadNext(e, cPops, cPushes, sh.head), Tau)
    case RemReadNext(e, cPops, cPushes, pHead) =>
      (sh, RemCheckPops(e || IsEmpty(sh), cPops, cPushes, pHead, NextOf(sh, pHead)), Tau)
    case RemCheckPops(e, cPops, cPushes, pHead, pNext) =>
      if cPops != sh.pops then (sh, RemReadPops(e), Tau)
      else (sh, RemCheckTail(e, cPops, cPushes, pHead, pNext), Tau)
    case RemCheckTail(e, cPops, cPushes, pHead, pNext) =>
      if pHead == sh.tail then
        if pNext == NULL then (sh, Idle, RetEmpty(t))
        else (sh, RemHelp(e, cPops, cPushes, pHead, pNext), Tau)
      else if pNext != NULL then (sh, RemReadValue(e, cPops, cPushes, pHead, pNext), Tau)
      else (sh, RemReadPops(e), Tau)
    case RemHelp(e, cPops, cPushes, pHead, pNext) =>
      (Cas2Tail(sh, pHead, cPushes, pNext), RemReadPops(e), Tau)
    case RemReadValue(e, cPops, cPushes, pHead, pNext) =>
      if pNext in sh.mem then (sh, RemCas(e, cPops, cPushes, pHead, pNext, sh.mem[pNext].value), Tau)
      else (sh, pc, Tau)
    case RemCas(e, cPops, cPushes, pHead, pNext, val) =>
      if sh.head == pHead && sh.pops == cPops then
        (sh.(head := pNext, pops := cPops + 1), RemStore(cPops, pHead, val), Tau)
      else
        (sh, RemReadPops(e), Tau)
    case RemStore(cPops, pHead, val) => (SetValue(sh, pHead, val), Idle, RetNode(t, pHead, val))
  }

  ghost predicate Init<T>(s: State<T>) {
    && s.sh.head != NULL
    && s.sh.mem.Keys == {s.sh.head}
    && s.sh.mem[s.sh.head].next == NULL
    && s.sh.chain == [s.sh.head]
    && s.sh.tail == s.sh.head
    && s.sh.pops == s.sh.pushes == 0
    && (forall t :: t in s.threads ==> s.threads[t] == Idle)
    && s.returned == {}
  }

  /**
   A caller hands over a node that was never handed over before. Its `pNext` field may hold
   anything; `Add` clears it first.
  */
  ghost predicate CallAddStep<T>(s: State<T>, t: Tid, n: Ptr, v: T, s': State<T>) {
    && t in s.threads && s.threads[t] == Idle
    && n != NULL && n !in s.sh.mem
    && s'.threads == s.threads[t := AddInit(n)]
    && s'.returned == s.returned
    && n in s'.sh.mem
    && s'.sh == s.sh.(mem := s.sh.mem[n := Cell(v, s'.sh.mem[n].next)])
  }

  ghost predicate CallRemoveStep<T>(s: State<T>, t: Tid, s': State<T>) {
    && t in s.threads && s.threads[t] == Idle
    && s' == s.(threads := s.threads[t := RemReadPops(false)])
  }

  ghost predicate RunStep<T>(s: State<T>, t: Tid, e: Event<T>, s': State<T>) {
    && t in s.threads && !s.threads[t].Idle?
    && var (sh, pc, ev) := Exec(s.sh, t, s.threads[t]);
    && e == ev
    && s' == State(sh, s.threads[t := pc], if ev.RetNode? then s.returned + {ev.res} else s.returned)
  }

  ghost predicate ThreadStep<T>(s: State<T>, t: Tid, e: Event<T>, s': State<T>) {
    || RunStep(s, t, e, s')
    || (e.CallAdd? && e.tid == t && CallAddStep(s, t, e.arg, e.item, s'))
    || (e == CallRemove(t) && CallRemoveStep(s, t, s'))
  }

  ghost predicate Next<T>(s: State<T>, e: Event<T>, s': State<T>) {
    exists t :: ThreadStep(s, t, e, s')
  }

  // ---------- The invariant ----------

  ghost predicate LinkedAt<T>(mem: map<Ptr, Cell<T>>, chain: seq<Ptr>, i: int) {
    0 <= i < |chain| - 1 && chain[i] in mem && mem[chain[i]].next == chain[i + 1]
  }

  ghost predicate NoRepeats(chain: seq<Ptr>) {
    forall i, j :: 0 <= i < j < |chain| ==> chain[i] != chain[j]
  }

  /** The chain is linked without repetition, and each counter is the chain index of its pointer. */
  ghost predicate SharedInv<T>(sh: Shared<T>) {
    && NULL !in sh.mem
    && (forall i :: 0 <= i < |sh.chain| ==> sh.chain[i] in sh.mem)
    && NoRepeats(sh.chain)
    && sh.pops <= sh.pushes < |sh.chain| <= sh.pushes + 2
    && sh.head == sh.chain[sh.pops]
    && sh.tail == sh.chain[sh.pushes]
    && (forall i :: 0 <= i < |sh.chain| - 1 ==> LinkedAt(sh.mem, sh.chain, i))
    && sh.mem[sh.chain[|sh.chain| - 1]].next == NULL
  }

  predicate InAdd<T>(pc: Pc<T>) {
    || pc.AddInit? || pc.AddReadPushes? || pc.AddReadTail? || pc.AddReadLink? || pc.AddCas?
    || pc.AddReadTailAgain? || pc.AddReadNext? || pc.AddHelp? || pc.AddSwing?
  }

  /** The node a thread is adding and has not linked yet. */
  function Pending<T>(pc: Pc<T>): Ptr {
    match pc
    case AddInit(n) => n
    case AddReadPushes(n) => n
    case AddReadTail(n, _) => n
    case AddReadLink(n, _, _) => n
    case AddCas(n, _, _, _) => n
    case AddReadTailAgain(n, _, _) => n
    case AddReadNext(n, _, _, _) => n
    case AddHelp(n, _, _, _) => n
    case _ => NULL
  }

  /** The node a thread has taken off the queue and not returned yet. */
  function Taken<T>(pc: Pc<T>): Ptr {
    if pc.RemStore? then pc.pHead else NULL
  }

  ghost predicate Unlinked<T>(sh: Shared<T>, n: Ptr) {
    n != NULL && n in sh.mem && n !in sh.chain
  }

  /** `p` is, or was, the tail. */
  ghost predicate WasTail<T>(sh: Shared<T>, p: Ptr)
    requires SharedInv(sh)
  {
    p in sh.chain[..sh.pushes + 1]
  }

  /** What a thread inside `Add` may rely on, whatever the other threads do next. */
  ghost predicate AddInv<T>(sh: Shared<T>, pc: Pc<T>)
    requires SharedInv(sh)
  {
    && (Pending(pc) != NULL ==> Unlinked(sh, Pending(pc)))
    && (Pending(pc) != NULL && !pc.AddInit? ==> sh.mem[Pending(pc)].next == NULL)
    && match pc
       case AddInit(n) => n != NULL
       case AddReadPushes(n) => n != NULL
       case AddReadTail(n, c) => n != NULL && c <= sh.pushes
       case AddReadLink(n, c, pTail) => n != NULL && c <= sh.pushes && (c == sh.pushes ==> pTail == sh.tail)
       case AddCas(n, c, pTail, at) =>
         && n != NULL && c <= sh.pushes && WasTail(sh, at)
         && (c == sh.pushes ==> pTail == at == sh.tail)
       case AddReadTailAgain(n, c, pTail) =>
         && n != NULL && c <= sh.pushes
         && (c == sh.pushes ==> pTail == sh.tail && c + 1 < |sh.chain|)
       case AddReadNext(n, c, pTail, at) =>
         && n != NULL && c <= sh.pushes && WasTail(sh, at)
         && (c == sh.pushes ==> pTail == at == sh.tail && c + 1 < |sh.chain|)
       case AddHelp(n, c, pTail, next) =>
         && n != NULL && c <= sh.pushes
         && (c == sh.pushes ==> pTail == sh.tail && c + 1 < |sh.chain| && next == sh.chain[c + 1])
       case AddSwing(n, c, pTail) =>
         && n in sh.chain && c <= sh.pushes
         && (c == sh.pushes ==> pTail == sh.tail && c + 1 < |sh.chain| && n == sh.chain[c + 1])
       case _ => true
  }

  /** What a thread inside `Remove` may rely on, whatever the other threads do next. */
  ghost predicate RemInv<T>(sh: Shared<T>, pc: Pc<T>)
    requires SharedInv(sh)
  {
    match pc
    case RemReadPushes(_, cPops) => cPops <= sh.pops
    case RemReadHead(_, cPops, cPushes) => cPops <= sh.pops && cPushes <= sh.pushes
    case RemReadNext(_, cPops, cPushes, pHead) =>
      && cPops <= sh.pops && cPushes <= sh.pushes && pHead in sh.chain
      && (cPops == sh.pops ==> pHead == sh.head)
    case RemCheckPops(e, cPops, cPushes, pHead, pNext) =>
      && cPops <= sh.pops && cPushes <= sh.pushes && pHead in sh.chain
      && (pNext != NULL ==> NextOf(sh, pHead) == pNext)
      && (cPops == sh.pops ==> pHead == sh.head)
      && (cPops == sh.pops && pNext == NULL ==> e && (cPushes == sh.pushes ==> pHead == sh.tail))
    case RemCheckTail(e, cPops, cPushes, pHead, pNext) =>
      && cPops <= sh.pops && cPushes <= sh.pushes && pHead == sh.chain[cPops]
      && (pNext != NULL ==> NextOf(sh, pHead) == pNext)
      && (pNext == NULL ==> e && (cPushes == sh.pushes ==> pHead == sh.tail))
    case RemHelp(_, cPops, cPushes, pHead, pNext) =>
      && cPops <= sh.pops && cPushes <= sh.pushes && pHead in sh.chain
      && pNext != NULL && NextOf(sh, pHead) == pNext
      && (cPushes == sh.pushes ==> pHead == sh.tail)
    case RemReadValue(_, cPops, cPushes, pHead, pNext) =>
      && cPops <= sh.pops && cPops < sh.pushes && cPushes <= sh.pushes
      && pHead == sh.chain[cPops] && pNext == sh.chain[cPops + 1]
    case RemCas(_, cPops, cPushes, pHead, pNext, val) =>
      && cPops <= sh.pops && cPops < sh.pushes && cPushes <= sh.pushes
      && pHead == sh.chain[cPops] && pNext == sh.chain[cPops + 1]
      && (cPops == sh.pops ==> val == sh.mem[pNext].value)
    case RemStore(cPops, pHead, _) =>
      cPops < sh.pops && pHead == sh.chain[cPops]
    case _ => true
  }

  ghost predicate LocalInv<T>(sh: Shared<T>, pc: Pc<T>)
    requires SharedInv(sh)
  {
    AddInv(sh, pc) && RemInv(sh, pc)
  }

  ghost predicate DistinctPending<T>(threads: map<Tid, Pc<T>>) {
    forall t, u :: t in threads && u in threads && t != u && Pending(threads[t]) != NULL ==>
      Pending(threads[t]) != Pending(threads[u])
  }

  ghost predicate DistinctTaken<T>(threads: map<Tid, Pc<T>>) {
    forall t, u :: t in threads && u in threads && t != u && Taken(threads[t]) != NULL ==>
      Taken(threads[t]) != Taken(threads[u])
  }

  ghost predicate TakenOutside<T>(threads: map<Tid, Pc<T>>, returned: set<Ptr>) {
    forall t :: t in threads ==> Taken(threads[t]) !in returned
  }

  /** No node is being added twice, and no node is handed back twice. */
  ghost predicate Exclusive<T>(s: State<T>)
    requires SharedInv(s.sh)
  {
    && DistinctPending(s.threads)
    && DistinctTaken(s.threads)
    && TakenOutside(s.threads, s.returned)
    && (forall p :: p in s.returned ==> p in s.sh.chain[..s.sh.pops])
  }

  ghost predicate Inv<T>(s: State<T>) {
    && SharedInv(s.sh)
    && (forall t :: t in s.threads ==> LocalInv(s.sh, s.threads[t]))
    && Exclusive(s)
  }

  /** How one step may change the shared state, when `own` is the node the stepping thread is adding. */
  ghost predicate Grow<T>(sh: Shared<T>, sh': Shared<T>, own: Ptr)
    requires SharedInv(sh) && SharedInv(sh')
  {
    && sh.chain <= sh'.chain
    && sh.pops <= sh'.pops && sh.pushes <= sh'.pushes
    && (forall p :: p in sh'.chain && p !in sh.chain ==> p == own)
    && (forall p :: p in sh.mem ==> p in sh'.mem)
    && (forall p :: p in sh.mem && p !in sh.chain && p != own ==> sh'.mem[p] == sh.mem[p])
    && (own in sh.mem ==> sh'.mem[own].value == sh.mem[own].value)
    && (forall p :: p in sh.chain && sh.mem[p].next != NULL ==> sh'.mem[p].next == sh.mem[p].next)
    && (forall i :: sh'.pops < i < |sh.chain| ==> sh'.mem[sh.chain[i]].value == sh.mem[sh.chain[i]].value)
  }

  lemma AddStable<T>(sh: Shared<T>, sh': Shared<T>, own: Ptr, pc: Pc<T>)
    requires SharedInv(sh) && SharedInv(sh') && Grow(sh, sh', own)
    requires AddInv(sh, pc)
    requires Pending(pc) == NULL || Pending(pc) != own
    ensures AddInv(sh', pc)
  {
    if Pending(pc) != NULL {
      UnlinkedStable(sh, sh', own, Pending(pc));
    }
    ChainStable(sh, sh', own);
    TailStable(sh, sh', own);
    hide Grow, NoRepeats, LinkedAt, Unlinked, WasTail;
  }

  lemma UnlinkedStable<T>(sh: Shared<T>, sh': Shared<T>, own: Ptr, n: Ptr)
    requires SharedInv(sh) && SharedInv(sh') && Grow(sh, sh', own) && Unlinked(sh, n) && n != own
    ensures Unlinked(sh', n) && sh'.mem[n] == sh.mem[n]
  {
    hide NoRepeats, LinkedAt;
  }

  /** The chain only grows at its end, and the counters only grow. */
  lemma ChainStable<T>(sh: Shared<T>, sh': Shared<T>, own: Ptr)
    requires SharedInv(sh) && SharedInv(sh') && Grow(sh, sh', own)
    ensures |sh.chain| <= |sh'.chain| && sh.pops <= sh'.pops && sh.pushes <= sh'.pushes
    ensures forall i :: 0 <= i < |sh.chain| ==> sh'.chain[i] == sh.chain[i]
  {
    hide NoRepeats, LinkedAt;
  }

  lemma TailStable<T>(sh: Shared<T>, sh': Shared<T>, own: Ptr)
    requires SharedInv(sh) && SharedInv(sh') && Grow(sh, sh', own)
    ensures forall p :: WasTail(sh, p) ==> WasTail(sh', p)
  {
    hide NoRepeats, LinkedAt;
    assert sh.chain[..sh.pushes + 1] <= sh'.chain[..sh'.pushes + 1];
  }

  /** A link between chain nodes, once made, stays. */
  lemma LinkStable<T>(sh: Shared<T>, sh': Shared<T>, own: Ptr, p: Ptr)
    requires SharedInv(sh) && SharedInv(sh') && Grow(sh, sh', own)
    requires p in sh.chain
    ensures p in sh'.chain
    ensures NextOf(sh, p) != NULL ==> NextOf(sh', p) == NextOf(sh, p)
  {
  }

  lemma ValueStable<T>(sh: Shared<T>, sh': Shared<T>, own: Ptr, i: nat)
    requires SharedInv(sh) && SharedInv(sh') && Grow(sh, sh', own) && sh'.pops < i < |sh.chain|
    ensures i < |sh'.chain| && sh'.chain[i] == sh.chain[i] && sh.chain[i] in sh.mem && sh.chain[i] in sh'.mem
    ensures sh'.mem[sh'.chain[i]].value == sh.mem[sh.chain[i]].value
  {
    hide NoRepeats, LinkedAt;
  }

  /** While the head and its link are being read and checked. */
  lemma RemReadingStable<T>(sh: Shared<T>, sh': Shared<T>, own: Ptr, pc: Pc<T>)
    requires SharedInv(sh) && SharedInv(sh') && Grow(sh, sh', own) && RemInv(sh, pc)
    requires pc.RemReadNext? || pc.RemCheckPops? || pc.RemCheckTail? || pc.RemHelp?
    ensures RemInv(sh', pc)
  {
    hide Grow, NoRepeats, LinkedAt;
    ChainStable(sh, sh', own);
    LinkStable(sh, sh', own, pc.pHead);
  }

  /** Once the next node is known to be in the chain. */
  lemma RemTakingStable<T>(sh: Shared<T>, sh': Shared<T>, own: Ptr, pc: Pc<T>)
    requires SharedInv(sh) && SharedInv(sh') && Grow(sh, sh', own) && RemInv(sh, pc)
    requires pc.RemReadValue? || pc.RemCas? || pc.RemStore?
    ensures RemInv(sh', pc)
  {
    hide Grow, NoRepeats, LinkedAt;
    ChainStable(sh, sh', own);
    if pc.RemCas? && pc.cPops == sh'.pops {
      ValueStable(sh, sh', own, pc.cPops + 1);
    }
  }

  lemma RemStable<T>(sh: Shared<T>, sh': Shared<T>, own: Ptr, pc: Pc<T>)
    requires SharedInv(sh) && SharedInv(sh') && Grow(sh, sh', own)
    requires RemInv(sh, pc)
    ensures RemInv(sh', pc)
  {
    hide NoRepeats, LinkedAt;
    if pc.RemReadNext? || pc.RemCheckPops? || pc.RemCheckTail? || pc.RemHelp? {
      RemReadingStable(sh, sh', own, pc);
    } else if pc.RemReadValue? || pc.RemCas? || pc.RemStore? {
      RemTakingStable(sh, sh', own, pc);
    }
  }

  // ---------- One step keeps the shared invariant ----------

  lemma GrowRefl<T>(sh: Shared<T>, own: Ptr)
    requires SharedInv(sh)
    ensures Grow(sh, sh, own)
  {
  }

  /**
   A CAS2 on the tail is safe whenever a successful one would store the successor of the
   tail. A pair read torn or stale makes it fail.
  */
  lemma Cas2TailKeeps<T>(sh: Shared<T>, p: Ptr, c: nat, q: Ptr, own: Ptr)
    requires SharedInv(sh)
    requires sh.tail == p && sh.pushes == c ==> c + 1 < |sh.chain| && q == sh.chain[c + 1]
    ensures SharedInv(Cas2Tail(sh, p, c, q))
    ensures Grow(sh, Cas2Tail(sh, p, c, q), own)
  {
  }

  /** Only the last node of the chain has a null link. */
  lemma NullIsLast<T>(sh: Shared<T>, p: Ptr)
    requires SharedInv(sh) && p in sh.chain && NextOf(sh, p) == NULL
    ensures p == sh.chain[|sh.chain| - 1]
  {
    forall i | 0 <= i < |sh.chain| - 1
      ensures NextOf(sh, sh.chain[i]) != NULL
    {
      assert LinkedAt(sh.mem, sh.chain, i);
    }
  }

  /** A non-null link leads from a chain node to the next one. */
  lemma LinkIsNext<T>(sh: Shared<T>, p: Ptr, i: nat)
    requires SharedInv(sh) && i < |sh.chain| && sh.chain[i] == p && NextOf(sh, p) != NULL
    ensures i + 1 < |sh.chain| && NextOf(sh, p) == sh.chain[i + 1]
  {
    assert i + 1 < |sh.chain| ==> LinkedAt(sh.mem, sh.chain, i);
  }

  lemma LinkKeeps<T>(sh: Shared<T>, at: Ptr, n: Ptr)
    requires SharedInv(sh) && Unlinked(sh, n) && sh.mem[n].next == NULL
    requires WasTail(sh, at) && NextOf(sh, at) == NULL
    ensures at == sh.tail && sh.pushes + 1 == |sh.chain|
    ensures var sh' := SetNext(sh, at, n).(chain := sh.chain + [n]);
            SharedInv(sh') && Grow(sh, sh', n)
  {
    NullIsLast(sh, at);
    var k :| 0 <= k < sh.pushes + 1 && sh.chain[k] == at;
    assert k == |sh.chain| - 1;
    var sh' := SetNext(sh, at, n).(chain := sh.chain + [n]);
    forall i | 0 <= i < |sh'.chain| - 1
      ensures LinkedAt(sh'.mem, sh'.chain, i)
    {
      if i < k {
        assert LinkedAt(sh.mem, sh.chain, i);
      }
    }
  }

  lemma ClearKeeps<T>(sh: Shared<T>, n: Ptr)
    requires SharedInv(sh) && Unlinked(sh, n)
    ensures SharedInv(SetNext(sh, n, NULL)) && Grow(sh, SetNext(sh, n, NULL), n)
  {
    forall i | 0 <= i < |sh.chain| - 1
      ensures LinkedAt(SetNext(sh, n, NULL).mem, sh.chain, i)
    {
      assert LinkedAt(sh.mem, sh.chain, i);
    }
  }

  lemma StoreKeeps<T>(sh: Shared<T>, k: nat, v: T, own: Ptr)
    requires SharedInv(sh) && k < sh.pops && own !in sh.chain
    ensures SharedInv(SetValue(sh, sh.chain[k], v)) && Grow(sh, SetValue(sh, sh.chain[k], v), own)
  {
    forall i | 0 <= i < |sh.chain| - 1
      ensures LinkedAt(SetValue(sh, sh.chain[k], v).mem, sh.chain, i)
    {
      assert LinkedAt(sh.mem, sh.chain, i);
    }
  }

  /** One step of `pc` keeps the shared invariant, disturbs no other thread, and sets up its own next step. */
  ghost predicate StepKeeps<T>(sh: Shared<T>, t: Tid, pc: Pc<T>)
    requires SharedInv(sh) && !pc.Idle?
  {
    var (sh', pc', _) := Exec(sh, t, pc);
    SharedInv(sh') && Grow(sh, sh', Pending(pc)) && AddInv(sh', pc') && RemInv(sh', pc')
  }

  lemma AddCasKeeps<T>(sh: Shared<T>, t: Tid, pc: Pc<T>)
    requires SharedInv(sh) && AddInv(sh, pc) && pc.AddCas?
    ensures StepKeeps(sh, t, pc)
  {
    if NextOf(sh, pc.at) == NULL {
      LinkKeeps(sh, pc.at, pc.node);
    } else {
      GrowRefl(sh, pc.node);
      var i :| 0 <= i < sh.pushes + 1 && sh.chain[i] == pc.at;
      LinkIsNext(sh, pc.at, i);
    }
  }

  lemma AddReadNextKeeps<T>(sh: Shared<T>, t: Tid, pc: Pc<T>)
    requires SharedInv(sh) && AddInv(sh, pc) && pc.AddReadNext?
    ensures StepKeeps(sh, t, pc)
  {
    hide Grow, NoRepeats;
    GrowRefl(sh, pc.node);
    assert pc.cPushes == sh.pushes ==> LinkedAt(sh.mem, sh.chain, pc.cPushes);
  }

  lemma AddStepKeeps<T>(sh: Shared<T>, t: Tid, pc: Pc<T>)
    requires SharedInv(sh) && AddInv(sh, pc) && InAdd(pc)
    ensures StepKeeps(sh, t, pc)
  {
    hide Grow, NoRepeats;
    match pc
    case AddInit(n) => ClearKeeps(sh, n);
    case AddCas(n, c, pTail, at) => AddCasKeeps(sh, t, pc);
    case AddReadNext(n, c, pTail, at) => AddReadNextKeeps(sh, t, pc);
    case AddHelp(n, c, pTail, next) => Cas2TailKeeps(sh, pTail, c, next, n);
    case AddSwing(n, c, pTail) => Cas2TailKeeps(sh, pTail, c, n, NULL);
    case _ => GrowRefl(sh, Pending(pc));
  }

  lemma RemReadNextKeeps<T>(sh: Shared<T>, t: Tid, pc: Pc<T>)
    requires SharedInv(sh) && RemInv(sh, pc) && pc.RemReadNext?
    ensures StepKeeps(sh, t, pc)
  {
    hide Grow;
    GrowRefl(sh, NULL);
    if NextOf(sh, pc.pHead) == NULL {
      NullIsLast(sh, pc.pHead);
    }
  }

  lemma RemCheckTailKeeps<T>(sh: Shared<T>, t: Tid, pc: Pc<T>)
    requires SharedInv(sh) && RemInv(sh, pc) && pc.RemCheckTail?
    ensures StepKeeps(sh, t, pc)
  {
    hide Grow;
    GrowRefl(sh, NULL);
    if pc.pHead != sh.tail && pc.pNext != NULL {
      assert pc.cPops < sh.pushes;
      assert LinkedAt(sh.mem, sh.chain, pc.cPops);
    }
  }

  lemma RemHelpKeeps<T>(sh: Shared<T>, t: Tid, pc: Pc<T>)
    requires SharedInv(sh) && RemInv(sh, pc) && pc.RemHelp?
    ensures StepKeeps(sh, t, pc)
  {
    hide Grow, NoRepeats, LinkedAt;
    if pc.cPushes == sh.pushes {
      LinkIsNext(sh, pc.pHead, pc.cPushes);
    }
    Cas2TailKeeps(sh, pc.pHead, pc.cPushes, pc.pNext, NULL);
  }

  lemma RemCasKeeps<T>(sh: Shared<T>, t: Tid, pc: Pc<T>)
    requires SharedInv(sh) && RemInv(sh, pc) && pc.RemCas?
    ensures StepKeeps(sh, t, pc)
  {
    if sh.head == pc.pHead && sh.pops == pc.cPops {
      assert SharedInv(Exec(sh, t, pc).0);
    } else {
      GrowRefl(sh, NULL);
    }
  }

  lemma RemCheckPopsKeeps<T>(sh: Shared<T>, t: Tid, pc: Pc<T>)
    requires SharedInv(sh) && RemInv(sh, pc) && pc.RemCheckPops?
    ensures StepKeeps(sh, t, pc)
  {
    hide Grow;
    GrowRefl(sh, NULL);
  }

  lemma RemReadValueKeeps<T>(sh: Shared<T>, t: Tid, pc: Pc<T>)
    requires SharedInv(sh) && RemInv(sh, pc) && pc.RemReadValue?
    ensures StepKeeps(sh, t, pc)
  {
    hide Grow;
    GrowRefl(sh, NULL);
  }

  lemma RemStepKeeps<T>(sh: Shared<T>, t: Tid, pc: Pc<T>)
    requires SharedInv(sh) && RemInv(sh, pc) && !pc.Idle? && !InAdd(pc)
    ensures StepKeeps(sh, t, pc)
  {
    hide Grow;
    match pc
    case RemReadNext(_, _, _, _) => RemReadNextKeeps(sh, t, pc);
    case RemCheckTail(_, _, _, _, _) => RemCheckTailKeeps(sh, t, pc);
    case RemHelp(_, _, _, _, _) => RemHelpKeeps(sh, t, pc);
    case RemCas(_, _, _, _, _, _) => RemCasKeeps(sh, t, pc);
    case RemStore(cPops, pHead, val) => StoreKeeps(sh, cPops, val, NULL);
    case RemReadPops(_) => GrowRefl(sh, NULL);
    case RemReadPushes(_, _) => GrowRefl(sh, NULL);
    case RemReadHead(_, _, _) => GrowRefl(sh, NULL);
    case RemCheckPops(_, _, _, _, _) => RemCheckPopsKeeps(sh, t, pc);
    case RemReadValue(_, _, _, _, _) => RemReadValueKeeps(sh, t, pc);
  }

  // ---------- The invariant holds in every reachable state ----------

  lemma InitInv<T>(s: State<T>)
    requires Init(s)
    ensures Inv(s)
  {
  }

  lemma FreshKeeps<T>(sh: Shared<T>, n: Ptr, cell: Cell<T>)
    requires SharedInv(sh) && n != NULL && n !in sh.mem
    ensures var sh' := sh.(mem := sh.mem[n := cell]);
            SharedInv(sh') && Grow(sh, sh', n) && Unlinked(sh', n)
  {
    var sh' := sh.(mem := sh.mem[n := cell]);
    forall i | 0 <= i < |sh.chain| - 1
      ensures LinkedAt(sh'.mem, sh.chain, i)
    {
      assert LinkedAt(sh.mem, sh.chain, i);
    }
  }

  lemma CallAddKeepsInv<T>(s: State<T>, t: Tid, n: Ptr, v: T, s': State<T>)
    requires Inv(s) && CallAddStep(s, t, n, v, s')
    ensures Inv(s')
  {
    hide NoRepeats, LinkedAt, SharedInv, LocalInv, Grow, Unlinked;
    FreshKeeps(s.sh, n, s'.sh.mem[n]);
    FreshLocal(s'.sh, n);
    forall u | u in s.threads && u != t
      ensures LocalInv(s'.sh, s.threads[u])
      ensures Pending(s.threads[u]) != n
    {
      OtherAfterCall(s.sh, s'.sh, n, s.threads[u]);
    }
  }

  lemma FreshLocal<T>(sh: Shared<T>, n: Ptr)
    requires SharedInv(sh) && Unlinked(sh, n)
    ensures LocalInv(sh, AddInit(n))
  {
    hide NoRepeats, LinkedAt;
  }

  lemma OtherAfterCall<T>(sh: Shared<T>, sh': Shared<T>, n: Ptr, pc: Pc<T>)
    requires SharedInv(sh) && LocalInv(sh, pc) && SharedInv(sh') && Grow(sh, sh', n) && n != NULL && n !in sh.mem
    ensures LocalInv(sh', pc) && Pending(pc) != n
  {
    hide NoRepeats, LinkedAt;
    PendingInMemory(sh, pc);
    hide Grow;
    AddStable(sh, sh', n, pc);
    RemStable(sh, sh', n, pc);
  }

  lemma PendingInMemory<T>(sh: Shared<T>, pc: Pc<T>)
    requires SharedInv(sh) && LocalInv(sh, pc)
    ensures Pending(pc) == NULL || Pending(pc) in sh.mem
  {
    hide NoRepeats, LinkedAt;
  }

  /** Who owns which node after a step of `pc`. */
  lemma OwnershipStep<T>(sh: Shared<T>, t: Tid, pc: Pc<T>)
    requires SharedInv(sh) && AddInv(sh, pc) && RemInv(sh, pc) && !pc.Idle?
    ensures var (sh', pc', e) := Exec(sh, t, pc);
            && (Pending(pc') == NULL || Pending(pc') == Pending(pc))
            && (Taken(pc') == NULL || (Taken(pc') == sh.head && sh'.pops == sh.pops + 1))
            && (e.RetNode? ==> e.res == Taken(pc) && Taken(pc) != NULL && Taken(pc') == NULL)
            && (Taken(pc) != NULL ==> Taken(pc) in sh'.chain[..sh'.pops])
            && (pc.RemStore? ==> Taken(pc) != NULL)
  {
    hide LinkedAt;
  }

  lemma RunStepKeepsInv<T>(s: State<T>, t: Tid, e: Event<T>, s': State<T>)
    requires Inv(s) && RunStep(s, t, e, s')
    ensures Inv(s')
    ensures Grow(s.sh, s'.sh, Pending(s.threads[t]))
  {
    var pc := s.threads[t];
    assert LocalInv(s.sh, pc);
    if InAdd(pc) {
      AddStepKeeps(s.sh, t, pc);
    } else {
      RemStepKeeps(s.sh, t, pc);
    }
    forall u | u in s'.threads
      ensures LocalInv(s'.sh, s'.threads[u])
    {
      if u != t {
        assert LocalInv(s.sh, s.threads[u]);
        AddStable(s.sh, s'.sh, Pending(pc), s.threads[u]);
        RemStable(s.sh, s'.sh, Pending(pc), s.threads[u]);
      }
    }
    OwnershipKept(s, t, e, s');
  }

  lemma PendingKept<T>(threads: map<Tid, Pc<T>>, t: Tid, pc: Pc<T>)
    requires t in threads && DistinctPending(threads)
    requires Pending(pc) == NULL || Pending(pc) == Pending(threads[t])
    ensures DistinctPending(threads[t := pc])
  {
  }

  lemma TakenKept<T>(threads: map<Tid, Pc<T>>, returned: set<Ptr>, t: Tid, pc: Pc<T>, ret: set<Ptr>,
                     popped: seq<Ptr>, popped': seq<Ptr>)
    requires t in threads && DistinctTaken(threads)
    requires TakenOutside(threads, returned)
    requires forall u :: u in threads && Taken(threads[u]) != NULL ==> Taken(threads[u]) in popped
    requires (forall p :: p in returned ==> p in popped) && NULL !in popped && popped <= popped'
    requires Taken(pc) == NULL || Taken(pc) !in popped
    requires ret == {} || (ret == {Taken(threads[t])} && Taken(threads[t]) != NULL && Taken(pc) == NULL)
    ensures DistinctTaken(threads[t := pc])
    ensures TakenOutside(threads[t := pc], returned + ret)
    ensures forall p :: p in returned + ret ==> p in popped'
  {
  }

  lemma OwnershipKept<T>(s: State<T>, t: Tid, e: Event<T>, s': State<T>)
    requires Inv(s) && RunStep(s, t, e, s')
    requires SharedInv(s'.sh) && Grow(s.sh, s'.sh, Pending(s.threads[t]))
    ensures Exclusive(s')
    ensures e.RetNode? ==> e.res !in s.returned
  {
    hide NoRepeats, LinkedAt, AddInv, RemInv, Exec;
    var pc, pc' := s.threads[t], s'.threads[t];
    var popped, popped' := s.sh.chain[..s.sh.pops], s'.sh.chain[..s'.sh.pops];
    assert LocalInv(s.sh, pc);
    OwnershipStep(s.sh, t, pc);
    HeadNotPopped(s.sh);
    forall u | u in s.threads
      ensures Taken(s.threads[u]) != NULL ==> Taken(s.threads[u]) in popped
    {
      assert LocalInv(s.sh, s.threads[u]);
      TakenIsPopped(s.sh, s.threads[u]);
    }
    PendingKept(s.threads, t, pc');
    TakenKept(s.threads, s.returned, t, pc', if e.RetNode? then {e.res} else {}, popped, popped');
  }

  lemma TakenIsPopped<T>(sh: Shared<T>, pc: Pc<T>)
    requires SharedInv(sh) && RemInv(sh, pc)
    ensures Taken(pc) != NULL ==> Taken(pc) in sh.chain[..sh.pops]
  {
  }

  lemma HeadNotPopped<T>(sh: Shared<T>)
    requires SharedInv(sh)
    ensures sh.head !in sh.chain[..sh.pops]
    ensures NULL !in sh.chain
  {
  }

  lemma CallRemoveKeepsInv<T>(s: State<T>, t: Tid, s': State<T>)
    requires Inv(s) && CallRemoveStep(s, t, s')
    ensures Inv(s')
  {
    hide NoRepeats, LinkedAt;
  }

  /** Safety over every run: the invariant survives every step of every thread. */
  lemma NextKeepsInv<T>(s: State<T>, e: Event<T>, s': State<T>)
    requires Inv(s) && Next(s, e, s')
    ensures Inv(s')
  {
    hide Inv, RunStep;
    var t :| ThreadStep(s, t, e, s');
    if RunStep(s, t, e, s') {
      RunStepKeepsInv(s, t, e, s');
    } else if e.CallAdd? {
      CallAddKeepsInv(s, t, e.arg, e.item, s');
    } else {
      CallRemoveKeepsInv(s, t, s');
    }
  }
}
