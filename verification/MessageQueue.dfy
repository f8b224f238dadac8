/** The bounded message queue of the `mq` program: any number of producers and
  * consumers sharing a `VecDeque` under the semaphores MUTEX, EMPTY and FULL.
  *
  * Every step of every child is separate, and reading and writing the queue are
  * two steps, so the scheduler may interleave the children anywhere. A wait that
  * does not pass leaves the child in the kernel's queue; a signal hands the token
  * to the child at its head. */
module MessageQueue {
  import opened Common
  import opened Counting
  import opened K = Semaphores
  import opened WaitQueues

  datatype Message = Message(pid: nat, val: nat)

  datatype Pc =
    | WaitSlot | BlockedOnSlot | WaitMutex | BlockedOnMutex
    | ReadQueue | WriteQueue | SignalMutex | SignalSlot | Exited | Panicked

  /** A child: `done` of its `rounds` are over; `seen` is the queue it has read. */
  datatype Proc = Proc(producer: bool, rounds: nat, done: nat, pc: Pc, seen: seq<Message>)

  /** `pushed` and `popped` record all messages that went in and out. The parent
    * has forked the first `forked` children and waited for the first `joined`. */
  datatype State = State(
    procs: seq<Proc>,
    mutex: Semaphore, empty: Semaphore, full: Semaphore,
    queue: seq<Message>, pushed: seq<Message>, popped: seq<Message>,
    forked: nat, joined: nat)

  datatype Actor = Parent | Child(id: nat)

  function LoopHead(p: Proc): Proc {
    p.(pc := if p.done < p.rounds then WaitSlot else Exited)
  }

  function Wake(procs: seq<Proc>, r: SemaphoreResult, pc: Pc): (r': seq<Proc>)
    ensures |r'| == |procs|
  {
    if r.WakeUp? && r.pid < |procs| then procs[r.pid := procs[r.pid].(pc := pc)] else procs
  }

  function ChildStep(s: State, i: nat): State
    requires i < |s.procs|
  {
    var p := s.procs[i];
    match p.pc
    case WaitSlot =>
      if p.producer then
        var (sem, r) := s.empty.Wait(i);
        s.(empty := sem, procs := s.procs[i := p.(pc := if r.Ok? then WaitMutex else BlockedOnSlot)])
      else
        var (sem, r) := s.full.Wait(i);
        s.(full := sem, procs := s.procs[i := p.(pc := if r.Ok? then WaitMutex else BlockedOnSlot)])
    case WaitMutex =>
      var (sem, r) := s.mutex.Wait(i);
      s.(mutex := sem, procs := s.procs[i := p.(pc := if r.Ok? then ReadQueue else BlockedOnMutex)])
    case ReadQueue =>
      s.(procs := s.procs[i := p.(pc := WriteQueue, seen := s.queue)])
    case WriteQueue =>
      if p.producer then
        var m := Message(i, p.done);
        s.(queue := p.seen + [m], pushed := s.pushed + [m], procs := s.procs[i := p.(pc := SignalMutex)])
      else if p.seen == [] then
        s.(procs := s.procs[i := p.(pc := Panicked)])
      else
        s.(queue := p.seen[1..], popped := s.popped + [p.seen[0]], procs := s.procs[i := p.(pc := SignalMutex)])
    case SignalMutex =>
      var (sem, r) := s.mutex.Signal();
      s.(mutex := sem, procs := Wake(s.procs[i := p.(pc := SignalSlot)], r, ReadQueue))
    case SignalSlot =>
      var p' := LoopHead(p.(done := p.done + 1));
      if p.producer then
        var (sem, r) := s.full.Signal();
        s.(full := sem, procs := Wake(s.procs[i := p'], r, WaitMutex))
      else
        var (sem, r) := s.empty.Signal();
        s.(empty := sem, procs := Wake(s.procs[i := p'], r, WaitMutex))
    case _ => s
  }

  predicate Enabled(s: State, a: Actor) {
    match a
    case Parent =>
      || s.forked < |s.procs|
      || (s.joined < |s.procs| && s.procs[s.joined].pc == Exited)
    case Child(i) =>
      i < s.forked && i < |s.procs|
      && !s.procs[i].pc.BlockedOnSlot? && !s.procs[i].pc.BlockedOnMutex?
      && !s.procs[i].pc.Exited? && !s.procs[i].pc.Panicked?
  }

  function Step(s: State, a: Actor): State
    requires Enabled(s, a)
  {
    match a
    case Parent => if s.forked < |s.procs| then s.(forked := s.forked + 1) else s.(joined := s.joined + 1)
    case Child(i) => ChildStep(s, i)
  }

  /** Before the first fork: all children at their loop heads, `size` free slots. */
  ghost predicate Init(s: State, size: nat) {
    && (forall i | 0 <= i < |s.procs| ::
          s.procs[i] == LoopHead(Proc(s.procs[i].producer, s.procs[i].rounds, 0, s.procs[i].pc, [])))
    && s.mutex == Semaphore(1, []) && s.empty == Semaphore(size, []) && s.full == Semaphore(0, [])
    && s.queue == s.pushed == s.popped == []
    && s.forked == s.joined == 0
  }

  /** The keys of MUTEX, EMPTY and FULL. */
  const MUTEX_KEY: nat := 1
  const EMPTY_KEY: nat := 2
  const FULL_KEY: nat := 3

  /** The calls with which the parent creates its semaphores, whatever had their keys before,
    * put the kernel's semaphores into the initial state of the program. */
  lemma CallsMakeInit(sems: K.Semaphores, s: State, size: nat)
    requires Init(s, size)
    ensures var calls := [Op.Insert(MUTEX_KEY, 1), Op.Insert(EMPTY_KEY, size), Op.Insert(FULL_KEY, 0)];
      var made := K.Run(sems, calls);
      && MUTEX_KEY in made && EMPTY_KEY in made && FULL_KEY in made
      && made[MUTEX_KEY] == s.mutex && made[EMPTY_KEY] == s.empty && made[FULL_KEY] == s.full
  {
    RunThree(sems, Op.Insert(MUTEX_KEY, 1), Op.Insert(EMPTY_KEY, size), Op.Insert(FULL_KEY, 0));
  }

  /** As many messages will be taken as will be sent. */
  ghost predicate Balanced(s: State) {
    Sum(s.procs, ToPush) + |s.pushed| == Sum(s.procs, ToPop) + |s.popped|
  }

  // ---- What each child holds ---------------------------------------------------

  ghost function InMutex(p: Proc): int {
    if (p.pc.ReadQueue? || p.pc.WriteQueue? || p.pc.SignalMutex?) then 1 else 0
  }

  ghost function HoldsSlot(p: Proc): int {
    if p.pc.WaitMutex? || p.pc.BlockedOnMutex? || p.pc.SignalSlot? then 1 else InMutex(p)
  }

  /** Messages in the queue that FULL does not count: pushed but not announced, or
    * promised to a consumer that has not taken them. */
  ghost function Unannounced(p: Proc): int {
    if p.producer then if (p.pc.SignalMutex? || p.pc.SignalSlot?) then 1 else 0
    else if (p.pc.WaitMutex? || p.pc.BlockedOnMutex? || p.pc.ReadQueue? || p.pc.WriteQueue?) then 1 else 0
  }

  ghost function Handled(p: Proc): int {
    p.done + if (p.pc.SignalMutex? || p.pc.SignalSlot?) then 1 else 0
  }

  ghost function ToPush(p: Proc): int { if p.producer then p.rounds - Handled(p) else 0 }

  ghost function ToPop(p: Proc): int { if p.producer then 0 else p.rounds - Handled(p) }

  ghost predicate AwaitsMutex(p: Proc) { p.pc == BlockedOnMutex }

  ghost predicate AwaitsEmpty(p: Proc) { p.pc == BlockedOnSlot && p.producer }

  ghost predicate AwaitsFull(p: Proc) { p.pc == BlockedOnSlot && !p.producer }

  /** The values that process `i` put into `messages`, in order. */
  ghost function From(messages: seq<Message>, i: nat): seq<nat> {
    if messages == [] then []
    else
      var last := messages[|messages| - 1];
      From(messages[..|messages| - 1], i) + if last.pid == i then [last.val] else []
  }

  ghost function Upto(n: nat): seq<nat> { seq(n, k => k) }

  // ---- The invariant -------------------------------------------------------------

  ghost predicate ChildOk(p: Proc) {
    && p.pc != Panicked
    && p.done <= p.rounds
    && (p.pc == Exited <==> p.done == p.rounds)
  }

  ghost predicate Tokens(s: State, size: nat) {
    && s.mutex.count + Sum(s.procs, InMutex) == 1
    && s.empty.count + s.full.count + Sum(s.procs, HoldsSlot) == size
    && |s.queue| == s.full.count + Sum(s.procs, Unannounced)
  }

  ghost predicate Queues(s: State) {
    && Queued(s.mutex, s.procs, AwaitsMutex)
    && Queued(s.empty, s.procs, AwaitsEmpty)
    && Queued(s.full, s.procs, AwaitsFull)
  }

  ghost predicate History(s: State) {
    && s.pushed == s.popped + s.queue
    && (forall i | 0 <= i < |s.procs| :: s.procs[i].pc == WriteQueue ==> s.procs[i].seen == s.queue)
    && (forall i | 0 <= i < |s.procs| && s.procs[i].producer :: From(s.pushed, i) == Upto(Handled(s.procs[i])))
  }

  ghost predicate Children(s: State) {
    && (forall i | 0 <= i < |s.procs| :: ChildOk(s.procs[i]))
    && s.joined <= s.forked <= |s.procs|
    && (s.joined > 0 ==> s.forked == |s.procs|)
    && (forall i | 0 <= i < s.joined :: s.procs[i].pc.Exited?)
    && (forall i | s.forked <= i < |s.procs| :: s.procs[i].pc.WaitSlot? || s.procs[i].pc.Exited?)
  }

  ghost predicate Inv(s: State, size: nat) {
    Children(s) && Tokens(s, size) && Balanced(s) && History(s) && Queues(s)
  }

  // ---- Every step keeps it -------------------------------------------------------

  lemma Sums(procs: seq<Proc>, i: nat, p: Proc)
    requires i < |procs|
    ensures Sum(procs[i := p], InMutex) == Sum(procs, InMutex) - InMutex(procs[i]) + InMutex(p)
    ensures Sum(procs[i := p], HoldsSlot) == Sum(procs, HoldsSlot) - HoldsSlot(procs[i]) + HoldsSlot(p)
    ensures Sum(procs[i := p], Unannounced) == Sum(procs, Unannounced) - Unannounced(procs[i]) + Unannounced(p)
    ensures Sum(procs[i := p], ToPush) == Sum(procs, ToPush) - ToPush(procs[i]) + ToPush(p)
    ensures Sum(procs[i := p], ToPop) == Sum(procs, ToPop) - ToPop(procs[i]) + ToPop(p)
    ensures Sum(procs[i := p], Rank) == Sum(procs, Rank) - Rank(procs[i]) + Rank(p)
  {
    SumUpdate(procs, i, p, InMutex);
    SumUpdate(procs, i, p, HoldsSlot);
    SumUpdate(procs, i, p, Unannounced);
    SumUpdate(procs, i, p, ToPush);
    SumUpdate(procs, i, p, ToPop);
    SumUpdate(procs, i, p, Rank);
  }

  lemma KeepQueues(s: State, i: nat, p: Proc)
    requires Queues(s) && i < |s.procs|
    requires AwaitsMutex(s.procs[i]) == AwaitsMutex(p)
    requires AwaitsEmpty(s.procs[i]) == AwaitsEmpty(p)
    requires AwaitsFull(s.procs[i]) == AwaitsFull(p)
    ensures Queues(s.(procs := s.procs[i := p]))
  {
    StaysQueued(s.mutex, s.mutex, s.procs, i, p, AwaitsMutex);
    StaysQueued(s.empty, s.empty, s.procs, i, p, AwaitsEmpty);
    StaysQueued(s.full, s.full, s.procs, i, p, AwaitsFull);
  }

  /** The measure of the remaining work: it falls with every step. */
  ghost function Rank(p: Proc): int {
    if p.done >= p.rounds then 0 else 8 * (p.rounds - p.done - 1) + StepsToLoopHead(p.pc)
  }

  ghost function StepsToLoopHead(pc: Pc): nat {
    match pc
    case WaitSlot => 8
    case BlockedOnSlot => 7
    case WaitMutex => 6
    case BlockedOnMutex => 5
    case ReadQueue => 4
    case WriteQueue => 3
    case SignalMutex => 2
    case SignalSlot => 1
    case _ => 0
  }

  ghost function Work(s: State): int {
    Sum(s.procs, Rank) + (|s.procs| - s.forked) + (|s.procs| - s.joined)
  }

  /** MUTEX excludes: at most one child is between its wait and its signal. */
  lemma Exclusive(s: State, size: nat, i: nat, j: nat)
    requires Tokens(s, size)
    requires i < |s.procs| && j < |s.procs|
    requires InMutex(s.procs[i]) == 1 && InMutex(s.procs[j]) == 1
    ensures i == j
  {
    if i < j { SumAtLeastTwo(s.procs, i, j, InMutex); }
    if j < i { SumAtLeastTwo(s.procs, j, i, InMutex); }
  }

  lemma CountsAreBounded(s: State, size: nat)
    requires Tokens(s, size)
    ensures s.empty.count + s.full.count <= size && s.mutex.count <= 1
    ensures s.full.count <= |s.queue|
  {
    SumNonNegative(s.procs, InMutex);
    SumNonNegative(s.procs, HoldsSlot);
    SumNonNegative(s.procs, Unannounced);
  }

  /** The counting part of a step: tokens stay balanced and work is done. */
  ghost predicate Progress(s: State, s': State, size: nat) {
    Tokens(s', size) && Balanced(s') && Work(s') < Work(s)
  }

  lemma WaitStep(s: State, size: nat, i: nat)
    requires Tokens(s, size) && Balanced(s) && i < |s.procs| && ChildOk(s.procs[i])
    requires s.procs[i].pc.WaitSlot? || s.procs[i].pc.WaitMutex? || s.procs[i].pc.ReadQueue?
    ensures Progress(s, ChildStep(s, i), size)
  {
    hide Sum;
    hide SumTo;
    Sums(s.procs, i, ChildStep(s, i).procs[i]);
  }

  lemma WaitStepQueues(s: State, i: nat)
    requires Queues(s) && i < |s.procs| && (s.procs[i].pc.WaitSlot? || s.procs[i].pc.WaitMutex?)
    ensures Queues(ChildStep(s, i))
  {
    var p, s' := s.procs[i], ChildStep(s, i);
    var p' := s'.procs[i];
    if AwaitsMutex(p') {
      Enqueue(s.mutex, s.procs, i, p', AwaitsMutex);
    } else {
      StaysQueued(s.mutex, s'.mutex, s.procs, i, p', AwaitsMutex);
    }
    if AwaitsEmpty(p') {
      Enqueue(s.empty, s.procs, i, p', AwaitsEmpty);
    } else {
      StaysQueued(s.empty, s'.empty, s.procs, i, p', AwaitsEmpty);
    }
    if AwaitsFull(p') {
      Enqueue(s.full, s.procs, i, p', AwaitsFull);
    } else {
      StaysQueued(s.full, s'.full, s.procs, i, p', AwaitsFull);
    }
  }

  lemma FromAppend(messages: seq<Message>, m: Message, i: nat)
    ensures From(messages + [m], i) == From(messages, i) + if m.pid == i then [m.val] else []
  {
    assert (messages + [m])[..|messages|] == messages;
  }

  lemma WriteQueueStep(s: State, size: nat, i: nat)
    requires Children(s) && Tokens(s, size) && Balanced(s) && History(s)
    requires i < s.forked && s.procs[i].pc.WriteQueue?
    ensures Progress(s, ChildStep(s, i), size)
    ensures History(ChildStep(s, i)) && ChildStep(s, i).procs[i].pc.SignalMutex?
  {
    hide Tokens;
    hide Balanced;
    hide Progress;
    ConsumerFindsMessage(s, size, i);
    WriteQueueCounts(s, size, i);
    forall j | 0 <= j < |s.procs| && j != i ensures !s.procs[j].pc.WriteQueue? {
      if s.procs[j].pc.WriteQueue? { Exclusive(s, size, i, j); }
    }
    WriteQueueHistory(s, i);
  }

  lemma ConsumerFindsMessage(s: State, size: nat, i: nat)
    requires Tokens(s, size) && i < |s.procs| && s.procs[i].pc.WriteQueue?
    ensures !s.procs[i].producer ==> s.queue != []
  {
    hide Sum;
    hide SumTo;
    SumAtLeast(s.procs, i, Unannounced);
    CountsAreBounded(s, size);
  }

  lemma WriteQueueCounts(s: State, size: nat, i: nat)
    requires Tokens(s, size) && Balanced(s) && i < |s.procs| && ChildOk(s.procs[i])
    requires s.procs[i].pc.WriteQueue? && s.procs[i].seen == s.queue && (!s.procs[i].producer ==> s.queue != [])
    ensures Progress(s, ChildStep(s, i), size)
  {
    hide Sum;
    hide SumTo;
    Sums(s.procs, i, ChildStep(s, i).procs[i]);
  }

  lemma WriteQueueHistory(s: State, i: nat)
    requires History(s) && i < |s.procs|
    requires s.procs[i].pc.WriteQueue? && s.procs[i].seen == s.queue && (!s.procs[i].producer ==> s.queue != [])
    requires forall j | 0 <= j < |s.procs| && j != i :: !s.procs[j].pc.WriteQueue?
    ensures History(ChildStep(s, i)) && ChildStep(s, i).procs[i].pc.SignalMutex?
  {
    hide From;
    hide Upto;
    var p, s' := s.procs[i], ChildStep(s, i);
    if p.producer {
      var m := Message(i, p.done);
      assert s'.pushed == s.popped + (s.queue + [m]);
      forall j: nat ensures From(s'.pushed, j) == From(s.pushed, j) + if j == i then [p.done] else [] {
        FromAppend(s.pushed, m, j);
      }
      UptoGrows(p.done);
      forall j | 0 <= j < |s.procs| && s'.procs[j].producer
        ensures From(s'.pushed, j) == Upto(Handled(s'.procs[j]))
      {
        assert From(s.pushed, j) == Upto(Handled(s.procs[j]));
        if j != i { assert From(s.pushed, j) + [] == From(s.pushed, j); }
      }
    } else {
      assert s.queue == [s.queue[0]] + s.queue[1..];
      assert s.pushed == s'.popped + s'.queue;
    }
  }

  lemma UptoGrows(n: nat)
    ensures Upto(n + 1) == Upto(n) + [n]
  {
  }

  /** The semaphore that child `i` is about to signal. */
  ghost function Signalled(s: State, i: nat): Semaphore
    requires i < |s.procs|
  {
    if s.procs[i].pc == SignalMutex then s.mutex else if s.procs[i].producer then s.full else s.empty
  }

  /** The child at the head of that semaphore's queue is blocked on it. */
  ghost predicate HeadIsBlocked(s: State, i: nat)
    requires i < |s.procs|
  {
    var sem, p := Signalled(s, i), s.procs[i];
    sem.waitQueue != [] ==> (
      && sem.count == 0
      && sem.waitQueue[0] < |s.procs|
      && var b := s.procs[sem.waitQueue[0]];
         if p.pc == SignalMutex then b.pc == BlockedOnMutex else b.pc == BlockedOnSlot && b.producer != p.producer)
  }

  lemma SignalMutexStep(s: State, size: nat, i: nat)
    requires Tokens(s, size) && Balanced(s) && i < |s.procs| && ChildOk(s.procs[i])
    requires s.procs[i].pc.SignalMutex? && HeadIsBlocked(s, i)
    requires s.mutex.waitQueue != [] ==> ChildOk(s.procs[s.mutex.waitQueue[0]])
    ensures Progress(s, ChildStep(s, i), size)
  {
    hide Sum;
    hide SumTo;
    var p' := s.procs[i].(pc := SignalSlot);
    Sums(s.procs, i, p');
    if s.mutex.waitQueue != [] {
      var j, t := s.mutex.waitQueue[0], s.procs[i := p'];
      Sums(t, j, t[j].(pc := ReadQueue));
    } else {
      CountsAreBounded(s, size);
    }
  }

  lemma SignalSlotStep(s: State, size: nat, i: nat)
    requires Tokens(s, size) && Balanced(s) && size < WORD_MODULUS && i < |s.procs| && ChildOk(s.procs[i])
    requires s.procs[i].pc.SignalSlot? && HeadIsBlocked(s, i)
    requires Signalled(s, i).waitQueue != [] ==> ChildOk(s.procs[Signalled(s, i).waitQueue[0]])
    ensures Progress(s, ChildStep(s, i), size)
  {
    hide Sum;
    hide SumTo;
    var sem := Signalled(s, i);
    var p' := LoopHead(s.procs[i].(done := s.procs[i].done + 1));
    Sums(s.procs, i, p');
    if sem.waitQueue != [] {
      var j, t := sem.waitQueue[0], s.procs[i := p'];
      Sums(t, j, t[j].(pc := WaitMutex));
    } else {
      SumAtLeast(s.procs, i, HoldsSlot);
      assert (sem.count + 1) % WORD_MODULUS == sem.count + 1;
    }
  }

  lemma SignalMutexQueues(s: State, i: nat)
    requires Queues(s) && i < |s.procs| && s.procs[i].pc == SignalMutex
    ensures HeadIsBlocked(s, i) && Queues(ChildStep(s, i))
  {
    var p' := s.procs[i].(pc := SignalSlot);
    KeepQueues(s, i, p');
    if s.mutex.waitQueue != [] {
      var j, t := s.mutex.waitQueue[0], s.procs[i := p'];
      assert j in s.mutex.waitQueue;
      var w := t[j].(pc := ReadQueue);
      Dequeue(s.mutex, t, w, AwaitsMutex);
      StaysQueued(s.empty, s.empty, t, j, w, AwaitsEmpty);
      StaysQueued(s.full, s.full, t, j, w, AwaitsFull);
    }
  }

  lemma SignalSlotQueues(s: State, i: nat)
    requires Queues(s) && i < |s.procs| && s.procs[i].pc == SignalSlot
    ensures HeadIsBlocked(s, i) && Queues(ChildStep(s, i))
  {
    var p, sem := s.procs[i], Signalled(s, i);
    var p' := LoopHead(p.(done := p.done + 1));
    KeepQueues(s, i, p');
    if sem.waitQueue != [] {
      assert sem.waitQueue[0] in sem.waitQueue;
      SlotIsHandedOver(s, i, s.procs[i := p']);
    }
  }

  lemma SlotIsHandedOver(s: State, i: nat, t: seq<Proc>)
    requires i < |s.procs| == |t| && Queues(s.(procs := t)) && s.procs[i].pc == SignalSlot
    requires var sem := Signalled(s, i);
      sem.waitQueue != [] && sem.waitQueue[0] < |t| && !AwaitsMutex(t[sem.waitQueue[0]])
    ensures var j := Signalled(s, i).waitQueue[0];
      var u := s.(procs := t[j := t[j].(pc := WaitMutex)]);
      Queues(if s.procs[i].producer then u.(full := s.full.Signal().0) else u.(empty := s.empty.Signal().0))
  {
    var j := Signalled(s, i).waitQueue[0];
    var w := t[j].(pc := WaitMutex);
    hide Queued;
    StaysQueued(s.mutex, s.mutex, t, j, w, AwaitsMutex);
    if s.procs[i].producer {
      Dequeue(s.full, t, w, AwaitsFull);
      StaysQueued(s.empty, s.empty, t, j, w, AwaitsEmpty);
    } else {
      Dequeue(s.empty, t, w, AwaitsEmpty);
      StaysQueued(s.full, s.full, t, j, w, AwaitsFull);
    }
  }

  lemma ChildKeepsCounts(s: State, size: nat, i: nat)
    requires Inv(s, size) && size < WORD_MODULUS && Enabled(s, Child(i))
    ensures Progress(s, ChildStep(s, i), size) && Queues(ChildStep(s, i))
    ensures s.procs[i].pc.SignalMutex? || s.procs[i].pc.SignalSlot? ==> HeadIsBlocked(s, i)
  {
    match s.procs[i].pc
    case WaitSlot => WaitStep(s, size, i); WaitStepQueues(s, i);
    case WaitMutex => WaitStep(s, size, i); WaitStepQueues(s, i);
    case ReadQueue => WaitStep(s, size, i); KeepQueues(s, i, ChildStep(s, i).procs[i]);
    case WriteQueue => WriteQueueStep(s, size, i); KeepQueues(s, i, ChildStep(s, i).procs[i]);
    case SignalMutex => SignalMutexQueues(s, i); SignalMutexStep(s, size, i);
    case SignalSlot => SignalSlotQueues(s, i); SignalSlotStep(s, size, i);
    case _ =>
  }

  /** A child moves on without touching the queue. */
  lemma MoveKeepsChildren(s: State, t: State, i: nat, p: Proc)
    requires Children(s) && History(s) && i < s.forked && !s.procs[i].pc.Exited?
    requires t == s.(procs := s.procs[i := p], mutex := t.mutex, empty := t.empty, full := t.full)
    requires ChildOk(p) && p.producer == s.procs[i].producer && Handled(p) == Handled(s.procs[i])
    requires p.pc.WriteQueue? ==> p.seen == s.queue
    ensures Children(t) && History(t)
  {
    hide From;
    hide Upto;
  }

  lemma SignalKeepsChildren(s: State, i: nat, p: Proc)
    requires Children(s) && History(s) && Enabled(s, Child(i))
    requires s.procs[i].pc.SignalMutex? || s.procs[i].pc.SignalSlot?
    requires HeadIsBlocked(s, i)
    requires p == if s.procs[i].pc.SignalMutex? then s.procs[i].(pc := SignalSlot)
                  else LoopHead(s.procs[i].(done := s.procs[i].done + 1))
    ensures Children(ChildStep(s, i)) && History(ChildStep(s, i))
  {
    hide From;
    hide Upto;
    hide Children;
    hide History;
    var s', sem := ChildStep(s, i), Signalled(s, i);
    var t := s.(procs := s.procs[i := p]);
    ChildIsOk(s, i);
    MoveKeepsChildren(s, t, i, p);
    if sem.waitQueue != [] {
      var j := sem.waitQueue[0];
      assert t.procs[j] == s.procs[j];
      ChildIsOk(s, j);
      MoveKeepsChildren(t, s', j, s'.procs[j]);
    } else {
      MoveKeepsChildren(s, s', i, p);
    }
  }

  lemma ChildIsOk(s: State, i: nat)
    requires Children(s) && i < |s.procs|
    ensures ChildOk(s.procs[i])
    ensures !s.procs[i].pc.WaitSlot? && !s.procs[i].pc.Exited? ==> i < s.forked
  {
  }

  lemma ChildKeepsChildren(s: State, i: nat)
    requires Children(s) && History(s) && Enabled(s, Child(i)) && !s.procs[i].pc.WriteQueue?
    requires s.procs[i].pc.SignalMutex? || s.procs[i].pc.SignalSlot? ==> HeadIsBlocked(s, i)
    ensures Children(ChildStep(s, i)) && History(ChildStep(s, i))
  {
    hide From;
    hide Upto;
    hide Children;
    hide History;
    var p, s' := s.procs[i], ChildStep(s, i);
    if p.pc.SignalMutex? || p.pc.SignalSlot? {
      SignalKeepsChildren(s, i, if p.pc.SignalMutex? then p.(pc := SignalSlot) else LoopHead(p.(done := p.done + 1)));
    } else {
      ChildIsOk(s, i);
      MoveKeepsChildren(s, s', i, s'.procs[i]);
    }
  }

  lemma WriteKeepsChildren(s: State, i: nat)
    requires Children(s) && i < s.forked && s.procs[i].pc.WriteQueue?
    requires ChildStep(s, i).procs[i].pc.SignalMutex?
    ensures Children(ChildStep(s, i))
  {
  }

  lemma ParentKeepsInv(s: State, size: nat)
    requires Inv(s, size) && Enabled(s, Parent)
    ensures Inv(Step(s, Parent), size) && Work(Step(s, Parent)) < Work(s)
  {
    hide Sum;
    hide From;
    hide Upto;
    hide Queued;
  }

  lemma StepKeepsInv(s: State, size: nat, a: Actor)
    requires Inv(s, size) && size < WORD_MODULUS && Enabled(s, a)
    ensures Inv(Step(s, a), size) && Work(Step(s, a)) < Work(s)
  {
    if a.Parent? {
      ParentKeepsInv(s, size);
    } else {
      ChildKeepsCounts(s, size, a.id);
      if s.procs[a.id].pc.WriteQueue? {
        WriteQueueStep(s, size, a.id);
        WriteKeepsChildren(s, a.id);
      } else {
        ChildKeepsChildren(s, a.id);
      }
    }
  }

  // ---- No deadlock ---------------------------------------------------------------

  /** While somebody waits for MUTEX, its holder can take a step. */
  lemma MutexHolderCanMove(s: State, size: nat, i: nat) returns (j: nat)
    requires Inv(s, size) && i < |s.procs| && s.procs[i].pc.BlockedOnMutex?
    ensures j < |s.procs| && InMutex(s.procs[j]) == 1 && Enabled(s, Child(j))
  {
    assert i in s.mutex.waitQueue;
    j := SumToWitness(s.procs, |s.procs|, InMutex);
  }

  /** If nobody can move, everybody has exited. */
  lemma NoDeadlock(s: State, size: nat)
    requires Inv(s, size) && size >= 1
    requires forall a :: !Enabled(s, a)
    ensures s.joined == |s.procs| && forall i | 0 <= i < |s.procs| :: s.procs[i].pc == Exited
  {
    hide Sum;
    hide SumTo;
    hide History;
    hide Balanced;
    assert !Enabled(s, Parent);
    forall i | 0 <= i < |s.procs| ensures (s.procs[i].pc.BlockedOnSlot? || s.procs[i].pc.Exited?) {
      assert !Enabled(s, Child(i));
      if s.procs[i].pc == BlockedOnMutex {
        var j := MutexHolderCanMove(s, size, i);
        assert false;
      }
    }
    NobodyStarves(s, size);
  }

  /** Producers and consumers cannot all be stuck at their slots. */
  lemma NobodyStarves(s: State, size: nat)
    requires Inv(s, size) && size >= 1
    requires forall i | 0 <= i < |s.procs| :: s.procs[i].pc.BlockedOnSlot? || s.procs[i].pc.Exited?
    ensures forall i | 0 <= i < |s.procs| :: s.procs[i].pc == Exited
  {
    hide Sum;
    hide SumTo;
    hide From;
    hide Upto;
    SumConstant(s.procs, HoldsSlot, 0);
    SumConstant(s.procs, Unannounced, 0);
    if i :| 0 <= i < |s.procs| && s.procs[i].pc == BlockedOnSlot {
      SumNonNegative(s.procs, ToPush);
      SumNonNegative(s.procs, ToPop);
      if s.procs[i].producer {
        assert i in s.empty.waitQueue;
        assert s.full.waitQueue == [];
        forall j | 0 <= j < |s.procs| ensures ToPop(s.procs[j]) == 0 {
          assert !(j in s.full.waitQueue);
        }
        SumConstant(s.procs, ToPop, 0);
      } else {
        assert i in s.full.waitQueue;
        assert s.empty.waitQueue == [];
        forall j | 0 <= j < |s.procs| ensures ToPush(s.procs[j]) == 0 {
          assert !(j in s.empty.waitQueue);
        }
        SumConstant(s.procs, ToPush, 0);
        SumAtLeast(s.procs, i, ToPop);
      }
      assert false;
    }
  }

  // ---- Whole runs ----------------------------------------------------------------

  /** A schedule is any choice of enabled actors. */
  ghost predicate Possible(s: State, schedule: seq<Actor>)
    decreases |schedule|
  {
    schedule == [] || (Enabled(s, schedule[0]) && Possible(Step(s, schedule[0]), schedule[1..]))
  }

  ghost function Run(s: State, schedule: seq<Actor>): State
    requires Possible(s, schedule)
    decreases |schedule|
  {
    if schedule == [] then s else Run(Step(s, schedule[0]), schedule[1..])
  }

  lemma InitIsInv(s: State, size: nat)
    requires Init(s, size) && Balanced(s)
    ensures Inv(s, size)
  {
    hide Balanced;
    InitTokens(s, size);
    assert History(s) by {
      hide Tokens;
    }
    assert Queues(s) by {
      hide Tokens;
    }
  }

  lemma InitTokens(s: State, size: nat)
    requires Init(s, size)
    ensures Tokens(s, size)
  {
    hide Sum;
    hide SumTo;
    SumConstant(s.procs, InMutex, 0);
    SumConstant(s.procs, HoldsSlot, 0);
    SumConstant(s.procs, Unannounced, 0);
  }

  lemma {:induction false} RunKeepsInv(s: State, size: nat, schedule: seq<Actor>)
    requires Inv(s, size) && size < WORD_MODULUS && Possible(s, schedule)
    ensures Inv(Run(s, schedule), size)
    ensures Work(Run(s, schedule)) + |schedule| <= Work(s)
    decreases |schedule|
  {
    if schedule != [] {
      StepKeepsInv(s, size, schedule[0]);
      RunKeepsInv(Step(s, schedule[0]), size, schedule[1..]);
    }
  }

  /** What holds after any number of steps of any schedule. */
  lemma Safety(s: State, size: nat, schedule: seq<Actor>)
    requires Init(s, size) && Balanced(s) && size < WORD_MODULUS && Possible(s, schedule)
    ensures var t := Run(s, schedule);
      && |t.queue| <= size
      && (forall i | 0 <= i < |t.procs| :: t.procs[i].pc != Panicked)
      && (forall i, j | 0 <= i < |t.procs| && 0 <= j < |t.procs| ::
            InMutex(t.procs[i]) == 1 && InMutex(t.procs[j]) == 1 ==> i == j)
      && t.pushed == t.popped + t.queue
      && (forall i | 0 <= i < |t.procs| && t.procs[i].producer :: From(t.pushed, i) == Upto(Handled(t.procs[i])))
  {
    hide SumTo;
    hide Init;
    hide From;
    hide Upto;
    hide Queues;
    InitIsInv(s, size);
    RunKeepsInv(s, size, schedule);
    var t := Run(s, schedule);
    forall i, j | 0 <= i < |t.procs| && 0 <= j < |t.procs| && InMutex(t.procs[i]) == 1 && InMutex(t.procs[j]) == 1
      ensures i == j
    {
      Exclusive(t, size, i, j);
    }
    SumToMonotone(t.procs, |t.procs|, Unannounced, HoldsSlot);
    SumNonNegative(t.procs, InMutex);
  }

  ghost predicate SameRoles(s: State, t: State) {
    && |t.procs| == |s.procs|
    && forall i | 0 <= i < |s.procs| ::
         SameRole(s.procs[i], t.procs[i])
  }

  ghost predicate SameRole(p: Proc, q: Proc) { q.producer == p.producer && q.rounds == p.rounds }

  /** Every step changes at most the child itself and the child it wakes. */
  lemma StepKeepsRoles(s: State, a: Actor)
    requires Enabled(s, a)
    ensures SameRoles(s, Step(s, a))
  {
    if a.Child? {
      if s.procs[a.id].pc.SignalMutex? || s.procs[a.id].pc.SignalSlot? {
        SignalKeepsRoles(s, a.id);
      } else {
        MoveKeepsRoles(s, a.id);
      }
    }
  }

  lemma MoveKeepsRoles(s: State, i: nat)
    requires i < |s.procs| && !s.procs[i].pc.SignalMutex? && !s.procs[i].pc.SignalSlot?
    ensures SameRoles(s, ChildStep(s, i))
  {
    var t := ChildStep(s, i);
    assert t.procs == s.procs[i := t.procs[i]] && SameRole(s.procs[i], t.procs[i]);
  }

  lemma SignalKeepsRoles(s: State, i: nat)
    requires i < |s.procs| && (s.procs[i].pc.SignalMutex? || s.procs[i].pc.SignalSlot?)
    ensures SameRoles(s, ChildStep(s, i))
  {
  }

  lemma {:induction false} RolesAreFixed(s: State, schedule: seq<Actor>)
    requires Possible(s, schedule)
    ensures SameRoles(s, Run(s, schedule))
    decreases |schedule|
  {
    hide Step;
    hide Enabled;
    if schedule != [] {
      StepKeepsRoles(s, schedule[0]);
      RolesAreFixed(Step(s, schedule[0]), schedule[1..]);
    }
  }

  /** Every schedule is finite, and one that cannot be continued has all children
    * exited and waited for, an empty queue, and every message of every producer
    * taken exactly once, in the order in which it was sent. */
  lemma Completion(s: State, size: nat, schedule: seq<Actor>)
    requires Init(s, size) && Balanced(s) && 1 <= size < WORD_MODULUS && Possible(s, schedule)
    ensures |schedule| <= Work(s)
    ensures var t := Run(s, schedule);
      (forall a :: !Enabled(t, a)) ==>
        && t.joined == |s.procs|
        && (forall i | 0 <= i < |t.procs| :: t.procs[i].pc == Exited)
        && t.queue == []
        && t.popped == t.pushed
        && (forall i | 0 <= i < |s.procs| && s.procs[i].producer :: From(t.popped, i) == Upto(s.procs[i].rounds))
  {
    hide Sum;
    hide SumTo;
    hide Init;
    hide From;
    hide Upto;
    hide Queues;
    InitIsInv(s, size);
    RunKeepsInv(s, size, schedule);
    RolesAreFixed(s, schedule);
    var t := Run(s, schedule);
    SumNonNegative(t.procs, Rank);
    if forall a :: !Enabled(t, a) {
      NoDeadlock(t, size);
      SumConstant(t.procs, ToPush, 0);
      SumConstant(t.procs, ToPop, 0);
    }
  }

  /** The program's own start: an even number of children, producers and
    * consumers in turn, all with the same number of rounds. */
  lemma AlternatingChildrenAreBalanced(s: State, pairs: nat, rounds: nat, size: nat)
    requires Init(s, size) && |s.procs| == 2 * pairs
    requires forall i | 0 <= i < |s.procs| :: s.procs[i].producer == (i % 2 == 0) && s.procs[i].rounds == rounds
    ensures Balanced(s)
  {
    AlternatingSums(s.procs, pairs, rounds);
  }

  lemma {:induction false} AlternatingSums(procs: seq<Proc>, pairs: nat, rounds: nat)
    requires 2 * pairs <= |procs|
    requires forall i | 0 <= i < |procs| ::
      procs[i].producer == (i % 2 == 0) && procs[i].rounds == rounds && Handled(procs[i]) == 0
    ensures SumTo(procs, 2 * pairs, ToPush) == SumTo(procs, 2 * pairs, ToPop)
  {
    if pairs > 0 {
      AlternatingSums(procs, pairs - 1, rounds);
      assert SumTo(procs, 2 * pairs - 1, ToPush) == SumTo(procs, 2 * pairs - 2, ToPush) + rounds;
      assert SumTo(procs, 2 * pairs - 1, ToPop) == SumTo(procs, 2 * pairs - 2, ToPop);
    }
  }
}
