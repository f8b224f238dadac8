/** The `counter` program: any number of processes increment a shared counter with
  * separate load, add and store steps, inside a semaphore of value 1 or inside the
  * user library's `SpinLock`. */
module Counter {
  import opened Common
  import opened Counting
  import opened K = Semaphores
  import opened WaitQueues

  /** `Confirm` is the store that `acquire` makes after its successful
    * compare-exchange. */
  datatype Pc = Acquire | Blocked | Confirm | Load | Add | Store | Release | Done

  datatype Proc = Proc(rounds: nat, done: nat, pc: Pc, val: int)

  datatype Lock = Sem(sem: Semaphore) | Spin(bolt: bool)

  datatype State = State(lock: Lock, counter: int, procs: seq<Proc>)

  /** The value of an `isize` after wrapping arithmetic. */
  function Wrap(x: int): int {
    (x + 0x8000_0000_0000_0000) % 0x1_0000_0000_0000_0000 - 0x8000_0000_0000_0000
  }

  function LoopHead(p: Proc): Proc {
    p.(pc := if p.done < p.rounds then Acquire else Done)
  }

  function AcquireStep(s: State, i: nat): State
    requires i < |s.procs|
  {
    var p := s.procs[i];
    match s.lock
    case Sem(sem) =>
      var (sem', r) := sem.Wait(i);
      s.(lock := Sem(sem'), procs := s.procs[i := p.(pc := if r.Ok? then Load else Blocked)])
    case Spin(bolt) =>
      if bolt then s else s.(lock := Spin(true), procs := s.procs[i := p.(pc := Confirm)])
  }

  function ReleaseStep(s: State, i: nat): State
    requires i < |s.procs|
  {
    var procs := s.procs[i := LoopHead(s.procs[i].(done := s.procs[i].done + 1))];
    match s.lock
    case Sem(sem) =>
      var (sem', r) := sem.Signal();
      s.(lock := Sem(sem'),
         procs := if r.WakeUp? && r.pid < |procs| then procs[r.pid := procs[r.pid].(pc := Load)] else procs)
    case Spin(_) => s.(lock := Spin(false), procs := procs)
  }

  function Step(s: State, i: nat): State
    requires i < |s.procs|
  {
    var p := s.procs[i];
    match p.pc
    case Acquire => AcquireStep(s, i)
    case Confirm => s.(lock := if s.lock.Spin? then Spin(true) else s.lock, procs := s.procs[i := p.(pc := Load)])
    case Load => s.(procs := s.procs[i := p.(pc := Add, val := s.counter)])
    case Add => s.(procs := s.procs[i := p.(pc := Store, val := Wrap(p.val + 1))])
    case Store => s.(counter := p.val, procs := s.procs[i := p.(pc := Release)])
    case Release => ReleaseStep(s, i)
    case _ => s
  }

  ghost predicate Init(s: State) {
    && (s.lock == Sem(Semaphore(1, [])) || s.lock == Spin(false))
    && s.counter == 0
    && forall i | 0 <= i < |s.procs| ::
         s.procs[i] == LoopHead(Proc(s.procs[i].rounds, 0, s.procs[i].pc, s.procs[i].val))
  }

  const KEY: nat := 0x1234

  /** The call that creates the semaphore, whatever had its key before, puts the kernel's
    * semaphore into the initial state of the program. */
  lemma CallMakesInit(sems: K.Semaphores, s: State)
    requires Init(s) && s.lock.Sem?
    ensures var made := Apply(sems, Op.Insert(KEY, 1)).0; KEY in made && made[KEY] == s.lock.sem
  {
  }

  // ---- The invariant ---------------------------------------------------------------

  ghost function Inside(p: Proc): int {
    if p.pc.Confirm? || p.pc.Load? || p.pc.Add? || p.pc.Store? || p.pc.Release? then 1 else 0
  }

  ghost function Added(p: Proc): int { p.done + if p.pc.Release? then 1 else 0 }

  ghost predicate IsBlocked(p: Proc) { p.pc.Blocked? }

  ghost function Rank(p: Proc): int {
    if p.done >= p.rounds then 0 else 7 * (p.rounds - p.done - 1) + StepsToLoopHead(p.pc)
  }

  ghost function StepsToLoopHead(pc: Pc): nat {
    match pc
    case Acquire => 7
    case Blocked => 6
    case Confirm => 5
    case Load => 4
    case Add => 3
    case Store => 2
    case Release => 1
    case Done => 0
  }

  ghost predicate LockOk(s: State) {
    match s.lock
    case Sem(sem) =>
      && sem.count + Sum(s.procs, Inside) == 1
      && Queued(sem, s.procs, IsBlocked)
      && (forall i | 0 <= i < |s.procs| :: !s.procs[i].pc.Confirm?)
    case Spin(bolt) =>
      && Sum(s.procs, Inside) == (if bolt then 1 else 0)
      && (forall i | 0 <= i < |s.procs| :: !s.procs[i].pc.Blocked?)
  }

  ghost predicate ProcOk(p: Proc, counter: int) {
    && p.done <= p.rounds && (p.pc.Done? <==> p.done == p.rounds)
    && (p.pc.Add? ==> p.val == counter)
    && (p.pc.Store? ==> p.val == Wrap(counter + 1))
  }

  ghost predicate Inv(s: State) {
    && (forall i | 0 <= i < |s.procs| :: ProcOk(s.procs[i], s.counter))
    && LockOk(s)
    && s.counter == Wrap(Sum(s.procs, Added))
  }

  // ---- Every step keeps it ---------------------------------------------------------

  lemma Sums(procs: seq<Proc>, i: nat, p: Proc)
    requires i < |procs|
    ensures Sum(procs[i := p], Inside) == Sum(procs, Inside) - Inside(procs[i]) + Inside(p)
    ensures Sum(procs[i := p], Added) == Sum(procs, Added) - Added(procs[i]) + Added(p)
    ensures Sum(procs[i := p], Rank) == Sum(procs, Rank) - Rank(procs[i]) + Rank(p)
  {
    SumUpdate(procs, i, p, Inside);
    SumUpdate(procs, i, p, Added);
    SumUpdate(procs, i, p, Rank);
  }

  lemma WrapSuccessor(x: int)
    ensures Wrap(Wrap(x) + 1) == Wrap(x + 1)
  {
  }

  /** Both locks exclude. */
  lemma Exclusive(s: State, i: nat, j: nat)
    requires LockOk(s) && i < |s.procs| && j < |s.procs|
    requires Inside(s.procs[i]) == 1 && Inside(s.procs[j]) == 1
    ensures i == j
  {
    if i < j { SumAtLeastTwo(s.procs, i, j, Inside); }
    if j < i { SumAtLeastTwo(s.procs, j, i, Inside); }
    SumNonNegative(s.procs, Inside);
  }

  lemma InsideBound(s: State, i: nat)
    requires LockOk(s) && i < |s.procs| && Inside(s.procs[i]) == 1
    ensures match s.lock case Sem(sem) => sem.count == 0 case Spin(bolt) => bolt
  {
    SumAtLeast(s.procs, i, Inside);
  }

  ghost function Work(s: State): int { Sum(s.procs, Rank) }

  /** A waiting process either gets the lock, blocks, or spins without any effect. */
  lemma AcquireKeepsInv(s: State, i: nat)
    requires Inv(s) && i < |s.procs| && s.procs[i].pc.Acquire?
    ensures Inv(Step(s, i))
    ensures if s.lock == Spin(true) then Step(s, i) == s else Work(Step(s, i)) < Work(s)
  {
    hide Sum;
    hide SumTo;
    var s' := Step(s, i);
    var p' := s'.procs[i];
    Sums(s.procs, i, p');
    if s.lock.Sem? {
      if s.lock.sem.count == 0 {
        Enqueue(s.lock.sem, s.procs, i, p', IsBlocked);
      } else {
        StaysQueued(s.lock.sem, s'.lock.sem, s.procs, i, p', IsBlocked);
      }
    }
  }

  lemma CriticalKeepsInv(s: State, i: nat)
    requires Inv(s) && i < |s.procs| && Inside(s.procs[i]) == 1 && !s.procs[i].pc.Release?
    ensures Inv(Step(s, i)) && Work(Step(s, i)) < Work(s)
  {
    hide Sum;
    hide SumTo;
    hide Wrap;
    var s' := Step(s, i);
    var p' := s'.procs[i];
    Sums(s.procs, i, p');
    InsideBound(s, i);
    if s.lock.Sem? {
      StaysQueued(s.lock.sem, s.lock.sem, s.procs, i, p', IsBlocked);
    }
    forall j | 0 <= j < |s.procs| ensures ProcOk(s'.procs[j], s'.counter) {
      if j != i && Inside(s.procs[j]) == 1 { Exclusive(s, i, j); }
    }
    WrapSuccessor(Sum(s.procs, Added));
  }

  lemma ReleaseKeepsInv(s: State, i: nat)
    requires Inv(s) && i < |s.procs| && s.procs[i].pc.Release?
    ensures Inv(Step(s, i)) && Work(Step(s, i)) < Work(s)
  {
    if s.lock.Sem? && s.lock.sem.waitQueue != [] {
      ReleaseHandsOver(s, i);
    } else {
      ReleaseFrees(s, i);
    }
  }

  /** Nobody waits in the queue. */
  lemma ReleaseFrees(s: State, i: nat)
    requires Inv(s) && i < |s.procs| && s.procs[i].pc.Release? && (s.lock.Sem? ==> s.lock.sem.waitQueue == [])
    ensures Inv(Step(s, i)) && Work(Step(s, i)) < Work(s)
  {
    hide Sum;
    hide SumTo;
    hide Wrap;
    var p' := LoopHead(s.procs[i].(done := s.procs[i].done + 1));
    Sums(s.procs, i, p');
    InsideBound(s, i);
    if s.lock.Sem? {
      StaysQueued(s.lock.sem, s.lock.sem.Signal().0, s.procs, i, p', IsBlocked);
    }
  }

  /** The first waiter gets the token. */
  lemma ReleaseHandsOver(s: State, i: nat)
    requires Inv(s) && i < |s.procs| && s.procs[i].pc.Release? && s.lock.Sem? && s.lock.sem.waitQueue != []
    ensures Inv(Step(s, i)) && Work(Step(s, i)) < Work(s)
  {
    hide Sum;
    hide SumTo;
    hide Wrap;
    var p', sem := LoopHead(s.procs[i].(done := s.procs[i].done + 1)), s.lock.sem;
    var t, j := s.procs[i := p'], sem.waitQueue[0];
    Sums(s.procs, i, p');
    StaysQueued(sem, sem, s.procs, i, p', IsBlocked);
    assert j in sem.waitQueue;
    Sums(t, j, t[j].(pc := Load));
    Dequeue(sem, t, t[j].(pc := Load), IsBlocked);
  }

  predicate Enabled(s: State, i: nat) {
    i < |s.procs| && !s.procs[i].pc.Blocked? && !s.procs[i].pc.Done?
  }

  /** A failed compare-exchange. */
  predicate Spins(s: State, i: nat) {
    i < |s.procs| && s.procs[i].pc.Acquire? && s.lock == Spin(true)
  }

  lemma StepKeepsInv(s: State, i: nat)
    requires Inv(s) && Enabled(s, i)
    ensures Inv(Step(s, i))
    ensures if Spins(s, i) then Step(s, i) == s else Work(Step(s, i)) < Work(s)
  {
    if s.procs[i].pc.Acquire? {
      AcquireKeepsInv(s, i);
    } else if s.procs[i].pc.Release? {
      ReleaseKeepsInv(s, i);
    } else {
      CriticalKeepsInv(s, i);
    }
  }

  /** Somebody can do more than spin until all processes are done. */
  lemma NoDeadlock(s: State)
    requires Inv(s)
    requires forall i :: Enabled(s, i) ==> Spins(s, i)
    ensures forall i | 0 <= i < |s.procs| :: s.procs[i].pc.Done?
  {
    forall i | 0 <= i < |s.procs| ensures Inside(s.procs[i]) == 0 {
      assert Enabled(s, i) ==> Spins(s, i);
    }
    SumConstant(s.procs, Inside, 0);
    forall i | 0 <= i < |s.procs| ensures s.procs[i].pc.Done? {
      assert Enabled(s, i) ==> Spins(s, i);
      if s.lock.Sem? { assert !(i in s.lock.sem.waitQueue); }
    }
  }

  // ---- Whole runs ------------------------------------------------------------------

  ghost predicate Possible(s: State, schedule: seq<nat>)
    decreases |schedule|
  {
    schedule == [] || (Enabled(s, schedule[0]) && Possible(Step(s, schedule[0]), schedule[1..]))
  }

  ghost function Run(s: State, schedule: seq<nat>): State
    requires Possible(s, schedule)
    decreases |schedule|
  {
    if schedule == [] then s else Run(Step(s, schedule[0]), schedule[1..])
  }

  /** The steps of the run that are not failed compare-exchanges. */
  ghost function Moves(s: State, schedule: seq<nat>): nat
    requires Possible(s, schedule)
    decreases |schedule|
  {
    if schedule == [] then 0
    else (if Spins(s, schedule[0]) then 0 else 1) + Moves(Step(s, schedule[0]), schedule[1..])
  }

  lemma {:induction false} RunKeepsInv(s: State, schedule: seq<nat>)
    requires Inv(s) && Possible(s, schedule)
    ensures Inv(Run(s, schedule))
    ensures Work(Run(s, schedule)) + Moves(s, schedule) <= Work(s)
    ensures |Run(s, schedule).procs| == |s.procs|
    ensures forall i | 0 <= i < |s.procs| :: Run(s, schedule).procs[i].rounds == s.procs[i].rounds
    decreases |schedule|
  {
    hide Inv;
    hide Sum;
    if schedule != [] {
      StepKeepsInv(s, schedule[0]);
      StepKeepsRounds(s, schedule[0]);
      hide Step;
      RunKeepsInv(Step(s, schedule[0]), schedule[1..]);
    }
  }

  lemma StepKeepsRounds(s: State, i: nat)
    requires i < |s.procs|
    ensures |Step(s, i).procs| == |s.procs|
    ensures forall j | 0 <= j < |s.procs| :: Step(s, i).procs[j].rounds == s.procs[j].rounds
  {
  }

  lemma InitIsInv(s: State)
    requires Init(s)
    ensures Inv(s)
  {
    SumConstant(s.procs, Inside, 0);
    SumConstant(s.procs, Added, 0);
  }

  /** Only finitely many steps of a schedule are more than spinning. */
  lemma MovesAreBounded(s: State, k: nat, schedule: seq<nat>)
    requires Init(s) && Possible(s, schedule)
    requires forall i | 0 <= i < |s.procs| :: s.procs[i].rounds == k
    ensures Moves(s, schedule) <= |s.procs| * (7 * k)
  {
    InitIsInv(s);
    RunKeepsInv(s, schedule);
    SumNonNegative(Run(s, schedule).procs, Rank);
    SumConstant(s.procs, Rank, 7 * k);
  }

  /** Any number of processes with `k` increments each: under every schedule and
    * either lock, when nothing but spinning is left, all processes are done and the
    * counter is the exact product, as far as an `isize` can hold it. */
  lemma CounterIsExact(s: State, k: nat, schedule: seq<nat>)
    requires Init(s) && Possible(s, schedule)
    requires forall i | 0 <= i < |s.procs| :: s.procs[i].rounds == k
    requires forall i :: Enabled(Run(s, schedule), i) ==> Spins(Run(s, schedule), i)
    ensures forall i | 0 <= i < |Run(s, schedule).procs| :: Run(s, schedule).procs[i].pc.Done?
    ensures Run(s, schedule).counter == Wrap(|s.procs| * k)
    ensures |s.procs| * k < 0x8000_0000_0000_0000 ==> Run(s, schedule).counter == |s.procs| * k
  {
    hide Sum;
    hide SumTo;
    hide Init;
    hide Wrap;
    InitIsInv(s);
    RunKeepsInv(s, schedule);
    var t := Run(s, schedule);
    NoDeadlock(t);
    SumConstant(t.procs, Added, k);
    WrapFits(|s.procs| * k);
  }

  lemma WrapFits(x: nat)
    ensures x < 0x8000_0000_0000_0000 ==> Wrap(x) == x
  {
  }
}
