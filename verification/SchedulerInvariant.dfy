/** What every step of the process manager keeps. */
module SchedulerInvariant {
  import opened Common
  import opened Scheduler
  import Sems = Semaphores

  /** Where a blocked process may be enlisted. */
  datatype Place = ExitOf(pid: Pid) | SemaphoreOf(set_: nat, key: nat)

  ghost predicate Waits(s: State, w: Pid, place: Place) {
    match place
    case ExitOf(pid) => pid in s.waitQueue && w in s.waitQueue[pid]
    case SemaphoreOf(id, key) => id in s.sets && key in s.sets[id] && w in s.sets[id][key].waitQueue
  }

  ghost predicate IsEnlisted(s: State, w: Pid) { exists place :: Waits(s, w, place) }

  /** The process table: pids in use, dead processes, the kernel. */
  ghost predicate Table(s: State) {
    && KERNEL_PID in s.processes
    && (s.processes[KERNEL_PID].status.Running? || s.processes[KERNEL_PID].status.Ready?)
    && s.nextPid < PID_MODULUS
    && (forall id | id in s.sets :: id < s.nextSet)
    && (forall p | p in s.processes ::
          && 1 <= p < s.nextPid
          && (s.processes[p].status.Dead? <==> s.processes[p].exitCode.Some?)
          && (s.processes[p].status.Dead? <==> s.processes[p].data.None?)
          && (s.processes[p].data.Some? ==> s.processes[p].data.value in s.sets))
  }

  /** Every queued pid exists, is queued once, and is ready unless it was killed. */
  ghost predicate Queue(s: State) {
    && NoDuplicates(s.readyQueue)
    && (forall p | p in s.readyQueue ::
          p in s.processes && (s.processes[p].status.Ready? || s.processes[p].status.Dead?))
  }

  /** Whoever is enlisted is blocked, and is enlisted once and in one place. */
  ghost predicate Waiters(s: State) {
    && (forall w, place | Waits(s, w, place) :: w in s.processes && s.processes[w].status.Blocked?)
    && (forall w, a, b | Waits(s, w, a) && Waits(s, w, b) :: a == b)
    && (forall id, key | id in s.sets && key in s.sets[id] ::
          NoDuplicates(s.sets[id][key].waitQueue) && s.sets[id][key].Settled())
  }

  /** Nobody waits for a process that already has an exit code. */
  ghost predicate ExitsSeen(s: State) {
    forall p | p in s.waitQueue && p in s.processes :: s.processes[p].exitCode.None?
  }

  ghost predicate Base(s: State) {
    !s.panicked && Table(s) && Queue(s) && Waiters(s) && ExitsSeen(s)
  }

  /** One process is current and not queued; the other live ones are ready and
    * queued, or blocked. */
  ghost predicate OneRuns(s: State) {
    && s.current in s.processes && s.current !in s.readyQueue
    && (s.processes[s.current].status.Running? || s.processes[s.current].status.Ready?)
    && (forall p | p in s.processes && p != s.current ::
          !s.processes[p].status.Running? && (s.processes[p].status.Ready? ==> p in s.readyQueue))
  }

  ghost predicate Inv(s: State) { Base(s) && OneRuns(s) }

  /** Just before `switch_next`: nobody runs, and all ready processes are queued. */
  ghost predicate Parting(s: State) {
    && Base(s)
    && (forall p | p in s.processes ::
          !s.processes[p].status.Running? && (s.processes[p].status.Ready? ==> p in s.readyQueue))
  }

  lemma InvIsQuiet(s: State)
    requires Inv(s)
    ensures !s.panicked
  {
  }

  // ---- What stays ------------------------------------------------------------------

  /** The same processes with the same fates, and the same semaphore sets. */
  ghost predicate SameLives(s: State, t: State) {
    && t.processes.Keys == s.processes.Keys && t.nextPid == s.nextPid
    && t.sets.Keys == s.sets.Keys && t.nextSet == s.nextSet
    && forall p | p in s.processes ::
         && t.processes[p].exitCode == s.processes[p].exitCode && t.processes[p].data == s.processes[p].data
         && (t.processes[p].status.Dead? <==> s.processes[p].status.Dead?)
  }

  lemma TableStays(s: State, t: State)
    requires Table(s) && SameLives(s, t)
    requires t.processes[KERNEL_PID].status.Running? || t.processes[KERNEL_PID].status.Ready?
    ensures Table(t)
  {
  }

  /** Lists that do not change stay sound while the blocked processes stay blocked. */
  lemma WaitersStay(s: State, t: State)
    requires Waiters(s) && t.waitQueue == s.waitQueue && t.sets == s.sets
    requires forall w | w in s.processes && s.processes[w].status.Blocked? ::
        w in t.processes && t.processes[w].status.Blocked?
    ensures Waiters(t)
  {
    assert forall w, place :: Waits(t, w, place) == Waits(s, w, place);
  }

  /** A live process that is running or ready is enlisted nowhere and has its set. */
  lemma CurrentIsFree(s: State)
    requires Inv(s)
    ensures !IsEnlisted(s, s.current) && Alive(s, s.current) && CurrentSet(s).Some?
  {
    forall place ensures !Waits(s, s.current, place) {
    }
  }

  // ---- switch_next -----------------------------------------------------------------

  lemma DropDeadHead(s: State)
    requires Parting(s) && s.readyQueue != []
    ensures var next, t := s.readyQueue[0], s.(readyQueue := s.readyQueue[1..]);
      next in s.processes && (!s.processes[next].status.Ready? ==> Parting(t))
  {
    var next, t := s.readyQueue[0], s.(readyQueue := s.readyQueue[1..]);
    assert next in s.readyQueue;
    assert forall p :: p in s.readyQueue <==> p == next || p in t.readyQueue;
    assert forall w, place :: Waits(t, w, place) == Waits(s, w, place);
  }

  lemma TakeReadyHead(s: State)
    requires Parting(s) && s.readyQueue != []
    requires s.readyQueue[0] in s.processes && s.processes[s.readyQueue[0]].status.Ready?
    ensures Inv(SwitchNext(s))
  {
    hide Waiters;
    hide Table;
    hide Queue;
    hide SwitchNext;
    SwitchTakesHead(s);
    KernelIsUp(s);
    var u := SwitchNext(s);
    WaitersStay(s, u);
    TableStays(s, u);
    TakenQueue(s, u);
  }

  lemma SwitchTakesHead(s: State)
    requires Table(s) && s.readyQueue != []
    requires s.readyQueue[0] in s.processes && s.processes[s.readyQueue[0]].status.Ready?
    ensures var u, next := SwitchNext(s), s.readyQueue[0];
      && next in u.processes
      && u == s.(processes := u.processes, readyQueue := s.readyQueue[1..], current := next, cpu := u.cpu)
      && u.processes == s.processes[next := s.processes[next].(status := u.processes[next].status)]
      && (u.processes[next].status.Running? || u.processes[next].status.Ready?)
  {
  }

  lemma TakenQueue(s: State, u: State)
    requires Queue(s) && s.readyQueue != [] && u.readyQueue == s.readyQueue[1..]
    requires u.processes.Keys == s.processes.Keys
    requires forall p | p in s.processes && p != s.readyQueue[0] :: u.processes[p] == s.processes[p]
    ensures Queue(u) && s.readyQueue[0] !in u.readyQueue
    ensures forall p :: p in s.readyQueue <==> p == s.readyQueue[0] || p in u.readyQueue
  {
  }

  /** The kernel is queued, so a ready process is always found. */
  lemma {:induction false} SwitchNextSettles(s: State)
    requires Parting(s)
    ensures Inv(SwitchNext(s))
    decreases |s.readyQueue|
  {
    assert KERNEL_PID in s.readyQueue;
    DropDeadHead(s);
    if s.processes[s.readyQueue[0]].status.Ready? {
      TakeReadyHead(s);
    } else {
      SwitchNextSettles(s.(readyQueue := s.readyQueue[1..]));
    }
  }

  lemma SaveAndPushParts(s: State)
    requires Inv(s)
    ensures Parting(PushReady(SaveCurrent(s), s.current))
  {
    hide Waiters;
    hide Table;
    var t := PushReady(SaveCurrent(s), s.current);
    KernelIsUp(s);
    TableStays(s, t);
    WaitersStay(s, t);
  }

  // ---- Waking ----------------------------------------------------------------------

  ghost predicate Wakeable(s: State, w: Pid) {
    w in s.processes && s.processes[w].status.Blocked? && forall place :: !Waits(s, w, place)
  }

  lemma WakeKeepsBase(s: State, w: Pid, ret: int)
    requires Base(s) && Wakeable(s, w)
    ensures Base(WakeUp(s, w, ret))
    ensures OneRuns(s) ==> OneRuns(WakeUp(s, w, ret))
    ensures Parting(s) ==> Parting(WakeUp(s, w, ret))
  {
    hide Table;
    var t := WakeUp(s, w, ret);
    KernelIsUp(s);
    WakeTable(s, w, ret);
    assert forall w, place :: Waits(t, w, place) == Waits(s, w, place);
    assert w !in s.readyQueue;
  }

  lemma WakeTable(s: State, w: Pid, ret: int)
    requires Table(s) && w in s.processes && s.processes[w].status.Blocked?
    ensures Table(WakeUp(s, w, ret))
  {
  }

  lemma {:induction false} WakeAllKeepsBase(s: State, pids: seq<Pid>, ret: int)
    requires Base(s) && NoDuplicates(pids) && forall w | w in pids :: Wakeable(s, w)
    ensures Base(WakeAll(s, pids, ret))
    ensures OneRuns(s) ==> OneRuns(WakeAll(s, pids, ret))
    ensures Parting(s) ==> Parting(WakeAll(s, pids, ret))
    decreases pids
  {
    if pids != [] {
      var t := WakeUp(s, pids[0], ret);
      assert pids[0] in pids;
      WakeKeepsBase(s, pids[0], ret);
      forall w | w in pids[1..] ensures Wakeable(t, w) {
        assert w in pids && w != pids[0];
        assert forall place :: Waits(t, w, place) == Waits(s, w, place);
      }
      WakeAllKeepsBase(t, pids[1..], ret);
    }
  }

  // ---- Killing ---------------------------------------------------------------------

  /** The table right after a process died and its waiters left the list. */
  ghost function Buried(s: State, pid: Pid, ret: int): State
    requires pid in s.processes
  {
    SetProcess(s, pid, Died(s.processes[pid], ret)).(waitQueue := s.waitQueue - {pid})
  }

  lemma BuriedWaits(s: State, pid: Pid, ret: int)
    requires Waiters(s) && pid in s.processes && !IsEnlisted(s, pid)
    ensures Waiters(Buried(s, pid, ret))
    ensures pid in s.waitQueue ==> forall w | w in s.waitQueue[pid] :: Wakeable(Buried(s, pid, ret), w)
  {
    var t := Buried(s, pid, ret);
    assert forall w, place :: Waits(t, w, place) <==> Waits(s, w, place) && place != ExitOf(pid);
    if pid in s.waitQueue {
      forall w | w in s.waitQueue[pid] ensures Wakeable(t, w) {
        assert Waits(s, w, ExitOf(pid));
      }
    }
  }

  lemma BuriedKeepsBase(s: State, pid: Pid, ret: int)
    requires Inv(s) && pid in s.processes && pid != KERNEL_PID && !IsEnlisted(s, pid)
    ensures Base(Buried(s, pid, ret))
    ensures pid == s.current ==> Parting(Buried(s, pid, ret))
    ensures pid != s.current ==> OneRuns(Buried(s, pid, ret))
    ensures pid in s.waitQueue ==> forall w | w in s.waitQueue[pid] :: Wakeable(Buried(s, pid, ret), w)
  {
    hide Waiters;
    hide Wakeable;
    hide IsEnlisted;
    hide Table;
    BuriedWaits(s, pid, ret);
    BuriedTable(s, pid, ret);
  }

  lemma BuriedTable(s: State, pid: Pid, ret: int)
    requires Table(s) && pid in s.processes && pid != KERNEL_PID
    ensures Table(Buried(s, pid, ret))
  {
  }

  lemma KillKeepsInv(s: State, pid: Pid, ret: int)
    requires Inv(s) && pid in s.processes && pid != KERNEL_PID && !IsEnlisted(s, pid)
    ensures pid == s.current ==> Parting(Kill(s, pid, ret))
    ensures pid != s.current ==> Inv(Kill(s, pid, ret))
  {
    BuriedKeepsBase(s, pid, ret);
    if pid in s.waitQueue {
      WakeAllKeepsBase(Buried(s, pid, ret), Ascending(s.waitQueue[pid]), ret);
    } else {
      assert s.waitQueue - {pid} == s.waitQueue;
    }
  }

  // ---- Blocking --------------------------------------------------------------------

  /** The current process has been saved and blocked. */
  ghost function Asleep(s: State): State { Scheduler.Block(SaveCurrent(s), s.current) }

  /** What holds of the lists while the current process enlists at `place`. */
  ghost predicate Enlisting(s: State, t: State, place: Place) {
    && t == s.(waitQueue := t.waitQueue, sets := t.sets) && t.sets.Keys == s.sets.Keys
    && (forall w, a :: Waits(t, w, a) <==> Waits(s, w, a) || (w == s.current && a == place))
    && (forall id, key | id in t.sets && key in t.sets[id] ::
          NoDuplicates(t.sets[id][key].waitQueue) && t.sets[id][key].Settled())
    && ExitsSeen(t)
  }

  /** The current process enlists in one place, is saved and blocks. */
  lemma SleepParts(s: State, t: State, place: Place)
    requires Inv(s) && s.current != KERNEL_PID && Enlisting(s, t, place)
    ensures Parting(Asleep(t))
  {
    hide Waiters;
    hide Table;
    KernelIsUp(s);
    SleepWaiters(s, t, place);
    SleepTable(s, t);
  }

  lemma SleepTable(s: State, t: State)
    requires Table(s) && s.current in s.processes && s.current != KERNEL_PID && !s.processes[s.current].status.Dead?
    requires t == s.(waitQueue := t.waitQueue, sets := t.sets) && t.sets.Keys == s.sets.Keys
    ensures Table(Asleep(t))
  {
    hide Table;
    KernelIsUp(s);
    TableStays(s, Asleep(t));
  }

  lemma SleepWaiters(s: State, t: State, place: Place)
    requires Waiters(s) && s.current in s.processes && !s.processes[s.current].status.Blocked?
    requires Enlisting(s, t, place)
    ensures Waiters(Asleep(t))
  {
    assert forall w, a :: Waits(Asleep(t), w, a) <==> Waits(t, w, a);
  }

  lemma KernelIsUp(s: State)
    requires Table(s)
    ensures KERNEL_PID in s.processes
    ensures s.processes[KERNEL_PID].status.Running? || s.processes[KERNEL_PID].status.Ready?
  {
  }

  lemma WaitPidKeepsInv(s: State, pid: Pid)
    requires Inv(s) && s.current != KERNEL_PID
    ensures if ExitCode(s, pid).None? then Parting(Asleep(Enlist(s, pid))) else Inv(WaitPidStep(s, pid))
  {
    if ExitCode(s, pid).None? {
      var t := Enlist(s, pid);
      assert forall w, a :: Waits(t, w, a) <==> Waits(s, w, a) || (w == s.current && a == ExitOf(pid));
      SleepParts(s, t, ExitOf(pid));
    } else {
      var t := WaitPidStep(s, pid);
      assert forall w, a :: Waits(t, w, a) <==> Waits(s, w, a);
    }
  }

  // ---- Semaphores ------------------------------------------------------------------

  /** A change of counts, of the answer register, or a shorter list. */
  lemma QuietKeepsInv(s: State, t: State)
    requires Inv(s)
    requires t == s.(cpu := t.cpu, sets := t.sets, waitQueue := t.waitQueue)
    requires t.sets.Keys == s.sets.Keys && t.waitQueue.Keys == s.waitQueue.Keys
    requires forall w, a :: Waits(t, w, a) ==> Waits(s, w, a)
    requires forall id, key | id in t.sets && key in t.sets[id] ::
      NoDuplicates(t.sets[id][key].waitQueue) && t.sets[id][key].Settled()
    ensures Inv(t)
  {
  }

  /** The semaphore sets after the current process waited, and its answer. */
  ghost function Waited(s: State, key: nat): (State, Sems.SemaphoreResult)
    requires CurrentSet(s).Some?
  {
    var (sems, r) := Sems.Apply(CurrentSet(s).value, Sems.Wait(key, s.current));
    (SetCurrentSet(s, sems), r)
  }

  /** A blocking wait enlists the current process at the semaphore. */
  lemma WaitedEnlists(s: State, key: nat)
    requires Waiters(s) && !IsEnlisted(s, s.current) && CurrentSet(s).Some? && Waited(s, key).1.Block?
    ensures ExitsSeen(s) ==>
        Enlisting(s, Waited(s, key).0, SemaphoreOf(s.processes[s.current].data.value, key))
  {
    var id := s.processes[s.current].data.value;
    var t := Waited(s, key).0;
    assert !Waits(s, s.current, SemaphoreOf(id, key));
    assert t.sets[id][key].waitQueue == s.sets[id][key].waitQueue + [s.current];
  }

  lemma SemWaitKeepsInv(s: State, key: nat)
    requires Inv(s) && s.current != KERNEL_PID
    ensures if Waited(s, key).1.Block? then Parting(Asleep(Waited(s, key).0)) else Inv(SemWaitStep(s, key))
  {
    CurrentIsFree(s);
    if Waited(s, key).1.Block? {
      hide Waited;
      hide Table;
      hide Queue;
      hide Asleep;
      hide Parting;
      hide OneRuns;
      hide Waits;
      hide Enlisting;
      WaitedEnlists(s, key);
      SleepParts(s, Waited(s, key).0, SemaphoreOf(s.processes[s.current].data.value, key));
    } else {
      QuietWait(s, key);
    }
  }

  lemma QuietWait(s: State, key: nat)
    requires Inv(s) && CurrentSet(s).Some? && !Waited(s, key).1.Block?
    ensures Inv(SemWaitStep(s, key))
  {
    hide Table;
    hide Queue;
    hide OneRuns;
    QuietKeepsInv(s, SemWaitStep(s, key));
  }

  /** The head of a semaphore's queue leaves it. */
  lemma PopKeepsInv(s: State, key: nat)
    requires Inv(s) && CurrentSet(s).Some? && key in CurrentSet(s).value && CurrentSet(s).value[key].waitQueue != []
    ensures var (sems, r) := Sems.Apply(CurrentSet(s).value, Sems.Signal(key));
      Inv(SetCurrentSet(s, sems)) && Wakeable(SetCurrentSet(s, sems), CurrentSet(s).value[key].waitQueue[0])
  {
    var id := s.processes[s.current].data.value;
    var place, q := SemaphoreOf(id, key), s.sets[id][key].waitQueue;
    var (sems, r) := Sems.Apply(CurrentSet(s).value, Sems.Signal(key));
    var t := SetCurrentSet(s, sems);
    assert t.sets[id][key].waitQueue == q[1..];
    assert forall w :: w in q[1..] <==> w in q && w != q[0];
    assert Waits(s, q[0], place);
    assert forall w, a :: Waits(t, w, a) <==> Waits(s, w, a) && !(w == q[0] && a == place);
    QuietKeepsInv(s, t);
  }

  lemma SemSignalKeepsInv(s: State, key: nat)
    requires Inv(s)
    ensures Inv(SemSignalStep(s, key))
  {
    CurrentIsFree(s);
    var sems := CurrentSet(s).value;
    if key in sems && sems[key].waitQueue != [] {
      hide Inv;
      hide Wakeable;
      PopKeepsInv(s, key);
      WokenKeepsInv(SetCurrentSet(s, Sems.Apply(sems, Sems.Signal(key)).0), sems[key].waitQueue[0], 0);
    } else {
      QuietSignal(s, key);
    }
  }

  lemma WokenKeepsInv(s: State, w: Pid, ret: int)
    requires Inv(s) && Wakeable(s, w)
    ensures Inv(WakeUp(s, w, ret))
  {
    hide Base;
    hide OneRuns;
    WakeKeepsBase(s, w, ret);
  }

  lemma QuietSignal(s: State, key: nat)
    requires Inv(s) && CurrentSet(s).Some?
    requires key in CurrentSet(s).value ==> CurrentSet(s).value[key].waitQueue == []
    ensures Inv(SemSignalStep(s, key))
  {
    hide Table;
    hide Queue;
    hide OneRuns;
    QuietKeepsInv(s, SemSignalStep(s, key));
  }

  lemma SemTableKeepsInv(s: State, key: nat, value: nat)
    requires Inv(s)
    ensures Inv(NewSemStep(s, key, value)) && Inv(RemoveSemStep(s, key))
  {
    CurrentIsFree(s);
    NewSemKeepsInv(s, key, value);
    RemoveSemKeepsInv(s, key);
  }

  lemma NewSemKeepsInv(s: State, key: nat, value: nat)
    requires Inv(s) && CurrentSet(s).Some?
    ensures Inv(NewSemStep(s, key, value))
  {
    hide Table;
    hide Queue;
    hide OneRuns;
    QuietKeepsInv(s, NewSemStep(s, key, value));
  }

  lemma RemoveSemKeepsInv(s: State, key: nat)
    requires Inv(s) && CurrentSet(s).Some?
    ensures Inv(RemoveSemStep(s, key))
  {
    hide Table;
    hide Queue;
    hide OneRuns;
    QuietKeepsInv(s, RemoveSemStep(s, key));
  }

  // ---- New processes ---------------------------------------------------------------

  lemma ForkKeepsWaiters(s: State, offset: nat)
    requires Inv(s) && s.nextPid !in s.processes
    ensures Waiters(Forked(s, offset))
  {
    var t := Forked(s, offset);
    assert forall w, a :: Waits(t, w, a) <==> Waits(s, w, a);
  }

  lemma ForkKeepsInv(s: State, offset: nat)
    requires Inv(s) && s.nextPid + 1 < PID_MODULUS
    ensures Parting(Forked(s, offset))
  {
    hide Waiters;
    hide Table;
    hide Queue;
    ForkKeepsTable(s, offset);
    ForkKeepsWaiters(s, offset);
    ForkKeepsQueue(s, offset);
  }

  lemma ForkKeepsTable(s: State, offset: nat)
    requires Table(s) && s.nextPid + 1 < PID_MODULUS && s.current in s.processes
    requires s.processes[s.current].status.Running? || s.processes[s.current].status.Ready?
    ensures s.nextPid !in s.processes && Table(Forked(s, offset))
  {
    assert s.nextPid !in s.processes;
  }

  lemma ForkKeepsQueue(s: State, offset: nat)
    requires Queue(s) && OneRuns(s) && s.nextPid !in s.processes
    ensures Queue(Forked(s, offset))
    ensures forall p :: p in Forked(s, offset).readyQueue <==> p in s.readyQueue || p == s.nextPid || p == s.current
  {
    assert Forked(s, offset).readyQueue == s.readyQueue + [s.nextPid, s.current];
  }

  lemma SpawnKeepsWaiters(s: State, entry: Context)
    requires Waiters(s) && s.nextPid !in s.processes && s.nextSet !in s.sets && Alive(s, KERNEL_PID)
    ensures Waiters(SpawnStep(s, entry))
  {
    var t := SpawnStep(s, entry);
    assert forall w, a :: Waits(t, w, a) <==> Waits(s, w, a);
  }

  lemma SpawnKeepsInv(s: State, entry: Context)
    requires Inv(s) && s.nextPid + 1 < PID_MODULUS
    ensures Inv(SpawnStep(s, entry))
  {
    hide Waiters;
    SpawnKeepsWaiters(s, entry);
    var t := SpawnStep(s, entry);
    assert Table(t);
    assert Queue(t);
  }

  // ---- Every step ------------------------------------------------------------------

  /** What the rest of the system guarantees about a step. The kernel's own code
    * never waits, forks, exits or uses semaphores; pids have not run out; and nobody
    * kills a process that is enlisted somewhere. */
  ghost predicate Admissible(s: State, step: Step) {
    && (s.current == KERNEL_PID ==> step.Tick? || step.Compute? || step.Spawn?)
    && (step.Fork? || step.Spawn? ==> s.nextPid + 1 < PID_MODULUS)
    && (step.SysKill? ==> step.pid == KERNEL_PID || !IsEnlisted(s, step.pid))
  }

  /** The steps that end in `switch_next`. */
  ghost predicate Switches(s: State, step: Step) {
    match step
    case Tick => true
    case Fork(_) => Alive(s, s.current)
    case Exit(_) => true
    case WaitPid(pid) => ExitCode(s, pid).None?
    case SysKill(pid) => pid != KERNEL_PID && pid == s.current
    case SemWait(key) => CurrentSet(s).Some? && Waited(s, key).1.Block?
    case _ => false
  }

  /** The state just before `switch_next`, or after a step without it. */
  ghost function Prepared(s: State, step: Step): State {
    if !Switches(s, step) then Next(s, step)
    else
      match step
      case Fork(offset) => Forked(s, offset)
      case Exit(ret) => Kill(s, s.current, ret)
      case WaitPid(pid) => Asleep(Enlist(s, pid))
      case SysKill(pid) => Kill(s, pid, KILLED)
      case SemWait(key) => Asleep(Waited(s, key).0)
      case _ => PushReady(SaveCurrent(s), s.current)
  }

  lemma NextIsPrepared(s: State, step: Step)
    ensures Next(s, step) == if Switches(s, step) then SwitchNext(Prepared(s, step)) else Prepared(s, step)
  {
  }

  lemma PreparedIsSound(s: State, step: Step)
    requires Inv(s) && Admissible(s, step)
    ensures if Switches(s, step) then Parting(Prepared(s, step)) else Inv(Prepared(s, step))
  {
    CurrentIsFree(s);
    hide Inv;
    hide Parting;
    hide IsEnlisted;
    if step.Exit? || step.SysKill? {
      DeathIsSound(s, step);
    } else if step.WaitPid? || step.SemWait? {
      SleepIsSound(s, step);
    } else {
      OtherIsSound(s, step);
    }
  }

  lemma DeathIsSound(s: State, step: Step)
    requires Inv(s) && Admissible(s, step) && !IsEnlisted(s, s.current) && (step.Exit? || step.SysKill?)
    requires Alive(s, s.current)
    ensures if Switches(s, step) then Parting(Prepared(s, step)) else Inv(Prepared(s, step))
  {
    hide Inv;
    hide Parting;
    hide IsEnlisted;
    match step
    case Exit(ret) => KillKeepsInv(s, s.current, ret);
    case SysKill(pid) => if pid != KERNEL_PID && pid in s.processes { KillKeepsInv(s, pid, KILLED); }
    case _ =>
  }

  lemma SleepIsSound(s: State, step: Step)
    requires Inv(s) && s.current != KERNEL_PID && CurrentSet(s).Some? && (step.WaitPid? || step.SemWait?)
    ensures if Switches(s, step) then Parting(Prepared(s, step)) else Inv(Prepared(s, step))
  {
    hide Inv;
    hide Parting;
    match step
    case WaitPid(pid) => WaitPidKeepsInv(s, pid);
    case SemWait(key) => SemWaitKeepsInv(s, key);
    case _ =>
  }

  lemma OtherIsSound(s: State, step: Step)
    requires Inv(s) && Admissible(s, step) && Alive(s, s.current)
    requires !step.Exit? && !step.SysKill? && !step.WaitPid? && !step.SemWait?
    ensures if Switches(s, step) then Parting(Prepared(s, step)) else Inv(Prepared(s, step))
  {
    hide Inv;
    hide Parting;
    match step
    case Tick => SaveAndPushParts(s);
    case Compute(cpu) => ComputeKeepsInv(s, cpu);
    case Fork(offset) => ForkKeepsInv(s, offset);
    case Spawn(entry) => SpawnKeepsInv(s, entry);
    case NewSem(key, value) => SemTableKeepsInv(s, key, value);
    case RemoveSem(key) => SemTableKeepsInv(s, key, 0);
    case SemSignal(key) => SemSignalKeepsInv(s, key);
    case _ =>
  }

  lemma ComputeKeepsInv(s: State, cpu: Context)
    requires Inv(s)
    ensures Inv(s.(cpu := cpu))
  {
    QuietKeepsInv(s, s.(cpu := cpu));
  }

  /** Every admissible step keeps the invariant; in particular it does not panic. */
  lemma StepKeepsInv(s: State, step: Step)
    requires Inv(s) && Admissible(s, step)
    ensures Inv(Next(s, step))
  {
    PreparedIsSound(s, step);
    NextIsPrepared(s, step);
    if Switches(s, step) {
      SwitchNextSettles(Prepared(s, step));
    }
  }

  lemma BootIsInv(cpu: Context)
    ensures Inv(Boot(cpu))
  {
  }
}
