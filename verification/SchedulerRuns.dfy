/** Whole runs of the process manager: the partition of the processes, what a step
  * does to the processes that are not current, and no lost exit code. */
module SchedulerRuns {
  import opened Common
  import opened Scheduler
  import opened SchedulerInvariant

  ghost predicate Allowed(s: State, steps: seq<Step>)
    decreases |steps|
  {
    steps == [] || (Admissible(s, steps[0]) && Allowed(Next(s, steps[0]), steps[1..]))
  }

  ghost function Run(s: State, steps: seq<Step>): State
    decreases |steps|
  {
    if steps == [] then s else Run(Next(s, steps[0]), steps[1..])
  }

  lemma {:induction false} RunKeepsInv(s: State, steps: seq<Step>)
    requires Inv(s) && Allowed(s, steps)
    ensures Inv(Run(s, steps))
    decreases |steps|
  {
    if steps != [] {
      StepKeepsInv(s, steps[0]);
      RunKeepsInv(Next(s, steps[0]), steps[1..]);
    }
  }

  /** In every reachable state the kernel has not panicked; each process is either
    * current and not queued, or ready and queued once, or blocked and enlisted in at
    * most one place, or dead with an exit code and nobody waiting for it; and the
    * kernel process is current or queued. */
  lemma Partition(cpu: Context, steps: seq<Step>)
    requires Allowed(Boot(cpu), steps)
    ensures var s := Run(Boot(cpu), steps);
      && !s.panicked
      && s.current in s.processes && s.current !in s.readyQueue
      && !s.processes[s.current].status.Blocked? && !s.processes[s.current].status.Dead?
      && (s.current == KERNEL_PID || KERNEL_PID in s.readyQueue)
      && NoDuplicates(s.readyQueue)
      && (forall p | p in s.readyQueue :: p in s.processes)
      && (forall p | p in s.processes && p != s.current ::
            match s.processes[p].status {
              case Running => false
              case Ready => p in s.readyQueue && !IsEnlisted(s, p)
              case Blocked => p !in s.readyQueue && forall a, b | Waits(s, p, a) && Waits(s, p, b) :: a == b
              case Dead => !IsEnlisted(s, p) && s.processes[p].exitCode.Some? && p !in s.waitQueue
            })
  {
    BootIsInv(cpu);
    RunKeepsInv(Boot(cpu), steps);
    var s := Run(Boot(cpu), steps);
    forall p | p in s.processes ensures IsEnlisted(s, p) ==> s.processes[p].status.Blocked? {
      if IsEnlisted(s, p) {
        var place :| Waits(s, p, place);
      }
    }
  }

  // ---- What one step does to the other processes -------------------------------------

  /** `switch_next` takes the first ready process of the queue. */
  lemma {:induction false} SwitchNextTakesFirstReady(s: State) returns (k: nat)
    requires Parting(s)
    ensures k < |s.readyQueue|
    ensures forall i | 0 <= i < k :: s.readyQueue[i] in s.processes && !s.processes[s.readyQueue[i]].status.Ready?
    ensures var t, next := SwitchNext(s), s.readyQueue[k];
      && next in s.processes && s.processes[next].status.Ready?
      && t.current == next && t.readyQueue == s.readyQueue[k + 1..]
      && t.waitQueue == s.waitQueue && t.sets == s.sets && t.nextPid == s.nextPid
      && t.cpu == (if next == s.current then s.cpu else s.processes[next].context)
      && t.processes == (if next == s.current then s.processes
                         else s.processes[next := s.processes[next].(status := Running)])
    decreases |s.readyQueue|
  {
    assert KERNEL_PID in s.readyQueue;
    var next, t := s.readyQueue[0], s.(readyQueue := s.readyQueue[1..]);
    DropDeadHead(s);
    if s.processes[next].status.Ready? {
      k := 0;
    } else {
      var j := SwitchNextTakesFirstReady(t);
      k := j + 1;
    }
  }

  ghost function Woken(p: Process, ret: int): Process {
    p.(context := p.context.(rax := AsUsize(ret)), status := Ready)
  }

  /** `wake_up` in a loop: each process gets its answer and a place in the queue. */
  lemma {:induction false} WakeAllEffect(s: State, pids: seq<Pid>, ret: int)
    requires NoDuplicates(pids) && forall w | w in pids :: w in s.processes
    ensures var t := WakeAll(s, pids, ret);
      && t == s.(processes := t.processes, readyQueue := s.readyQueue + pids)
      && t.processes.Keys == s.processes.Keys
      && (forall p | p in s.processes ::
            t.processes[p] == if p in pids then Woken(s.processes[p], ret) else s.processes[p])
    decreases pids
  {
    if pids == [] {
      assert s.readyQueue + pids == s.readyQueue;
    } else {
      var t, u := WakeUp(s, pids[0], ret), WakeAll(s, pids, ret);
      assert pids[0] in pids && forall w | w in pids[1..] :: w in pids;
      WakeUpEffect(s, pids[0], ret);
      hide WakeUp;
      WakeAllEffect(t, pids[1..], ret);
      assert t.readyQueue + pids[1..] == s.readyQueue + pids;
      forall p | p in s.processes
        ensures u.processes[p] == if p in pids then Woken(s.processes[p], ret) else s.processes[p]
      {
        HeadOrTail(pids, p);
      }
    }
  }

  lemma WakeUpEffect(s: State, w: Pid, ret: int)
    requires w in s.processes
    ensures WakeUp(s, w, ret)
         == s.(processes := s.processes[w := Woken(s.processes[w], ret)], readyQueue := s.readyQueue + [w])
  {
  }

  lemma HeadOrTail(pids: seq<Pid>, p: Pid)
    requires pids != [] && NoDuplicates(pids)
    ensures p in pids <==> p == pids[0] || p in pids[1..]
    ensures p == pids[0] ==> p !in pids[1..]
  {
  }

  ghost function WaitersOf(s: State, pid: Pid): set<Pid> {
    if pid in s.waitQueue then s.waitQueue[pid] else {}
  }

  lemma KillEffect(s: State, pid: Pid, ret: int)
    requires Inv(s) && pid in s.processes && !IsEnlisted(s, pid)
    ensures var t := Kill(s, pid, ret);
      && t == s.(processes := t.processes, waitQueue := s.waitQueue - {pid},
                 readyQueue := s.readyQueue + Ascending(WaitersOf(s, pid)))
      && t.processes.Keys == s.processes.Keys
      && (forall p | p in s.processes ::
            t.processes[p] ==
              if p == pid then Died(s.processes[p], ret)
              else if p in WaitersOf(s, pid) then Woken(s.processes[p], ret)
              else s.processes[p])
  {
    forall w | w in WaitersOf(s, pid) ensures w in s.processes && w != pid {
      assert Waits(s, w, ExitOf(pid));
    }
    if pid in s.waitQueue {
      WakeAllEffect(Buried(s, pid, ret), Ascending(s.waitQueue[pid]), ret);
    } else {
      assert s.waitQueue - {pid} == s.waitQueue;
      assert s.readyQueue + [] == s.readyQueue;
    }
  }

  /** The answer with which this step wakes process `p`, if it does. */
  ghost function Answer(s: State, step: Step, p: Pid): Option<int> {
    match step
    case Exit(ret) => if p in WaitersOf(s, s.current) then Some(ret) else None
    case SysKill(pid) =>
      if pid != KERNEL_PID && pid in s.processes && p in WaitersOf(s, pid) then Some(KILLED) else None
    case SemSignal(key) =>
      if CurrentSet(s).Some? && key in CurrentSet(s).value
         && CurrentSet(s).value[key].waitQueue != [] && CurrentSet(s).value[key].waitQueue[0] == p
      then Some(0) else None
    case _ => None
  }

  /** What a step does to a process that is not current, before any switch. */
  ghost function Others(s: State, step: Step, p: Pid): Process
    requires p in s.processes
  {
    if Answer(s, step, p).Some? then Woken(s.processes[p], Answer(s, step, p).value)
    else if step == SysKill(p) && p != KERNEL_PID then Died(s.processes[p], KILLED)
    else s.processes[p]
  }

  ghost predicate OthersDone(s: State, step: Step, p: Pid)
    requires p in s.processes
  {
    var t := Prepared(s, step);
    && p in t.processes && t.processes[p] == Others(s, step, p)
    && s.readyQueue <= t.readyQueue
    && t.current == s.current
  }

  lemma ExitOthers(s: State, ret: int, p: Pid)
    requires Inv(s) && p in s.processes && p != s.current
    ensures OthersDone(s, Exit(ret), p)
  {
    assert forall place :: !Waits(s, s.current, place);
    KillEffect(s, s.current, ret);
    assert Prepared(s, Exit(ret)) == Kill(s, s.current, ret);
  }

  lemma SysKillOthers(s: State, pid: Pid, p: Pid)
    requires Inv(s) && Admissible(s, SysKill(pid)) && p in s.processes && p != s.current
    ensures OthersDone(s, SysKill(pid), p)
  {
    if pid != KERNEL_PID && pid in s.processes {
      assert !Waits(s, pid, ExitOf(pid));
      KillEffect(s, pid, KILLED);
      assert Prepared(s, SysKill(pid)) == Kill(s, pid, KILLED);
    } else {
      assert Prepared(s, SysKill(pid)) == s;
    }
  }

  lemma SignalOthers(s: State, step: Step, p: Pid)
    requires Inv(s) && p in s.processes && p != s.current && step.SemSignal?
    ensures OthersDone(s, step, p)
  {
    CurrentIsFree(s);
    var key, sems := step.key, CurrentSet(s).value;
    if key in sems && sems[key].waitQueue != [] {
      assert Waits(s, sems[key].waitQueue[0], SemaphoreOf(s.processes[s.current].data.value, key));
      SignalWakesHead(s, key, p);
    } else {
      SignalWakesNobody(s, key, p);
    }
  }

  lemma SignalWakesHead(s: State, key: nat, p: Pid)
    requires CurrentSet(s).Some? && p in s.processes && key in CurrentSet(s).value
    requires CurrentSet(s).value[key].waitQueue != [] && CurrentSet(s).value[key].waitQueue[0] in s.processes
    ensures OthersDone(s, SemSignal(key), p)
  {
  }

  lemma SignalWakesNobody(s: State, key: nat, p: Pid)
    requires CurrentSet(s).Some? && p in s.processes
    requires key in CurrentSet(s).value ==> CurrentSet(s).value[key].waitQueue == []
    ensures OthersDone(s, SemSignal(key), p)
  {
  }

  lemma QuietOthers(s: State, step: Step, p: Pid)
    requires CurrentSet(s).Some? && p in s.processes && p != s.current
    requires Alive(s, KERNEL_PID) && s.nextPid !in s.processes
    requires step.Tick? || step.Compute? || step.Fork? || step.Spawn? || step.NewSem? || step.RemoveSem?
    ensures OthersDone(s, step, p)
  {
  }

  lemma WaitPidOthers(s: State, q: Pid, p: Pid)
    requires Alive(s, s.current) && p in s.processes && p != s.current
    ensures OthersDone(s, WaitPid(q), p)
  {
  }

  lemma SemWaitOthers(s: State, key: nat, p: Pid)
    requires CurrentSet(s).Some? && p in s.processes && p != s.current
    ensures OthersDone(s, SemWait(key), p)
  {
  }

  lemma NewPidIsFree(s: State)
    requires Inv(s)
    ensures Alive(s, KERNEL_PID) && s.nextPid !in s.processes
  {
  }

  lemma OthersInPrepared(s: State, step: Step, p: Pid)
    requires Inv(s) && Admissible(s, step) && p in s.processes && p != s.current
    ensures OthersDone(s, step, p)
  {
    CurrentIsFree(s);
    NewPidIsFree(s);
    hide Inv;
    hide OthersDone;
    match step
    case Exit(ret) => ExitOthers(s, ret, p);
    case SysKill(pid) => SysKillOthers(s, pid, p);
    case SemSignal(_) => SignalOthers(s, step, p);
    case WaitPid(q) => WaitPidOthers(s, q, p);
    case SemWait(key) => SemWaitOthers(s, key, p);
    case _ => QuietOthers(s, step, p);
  }

  /** Only blocked processes are woken, and a woken one is not killed in that step. */
  lemma OnlyBlockedAreWoken(s: State, step: Step, p: Pid)
    requires Inv(s) && Admissible(s, step) && Answer(s, step, p).Some?
    ensures p in s.processes && s.processes[p].status.Blocked? && p != s.current
  {
    match step
    case Exit(ret) => assert Waits(s, p, ExitOf(s.current));
    case SysKill(pid) => assert Waits(s, p, ExitOf(pid));
    case SemSignal(key) => assert Waits(s, p, SemaphoreOf(s.processes[s.current].data.value, key));
    case _ =>
  }

  /** A process that is not current either keeps what the step did to it, or is chosen:
    * then exactly its saved context is loaded. */
  lemma OthersAfterStep(s: State, step: Step, p: Pid)
    requires Inv(s) && Admissible(s, step) && p in s.processes && p != s.current
    ensures var t := Next(s, step);
      && p in t.processes
      && (t.current != p ==> t.processes[p] == Others(s, step, p))
      && (t.current == p ==> t.cpu == Others(s, step, p).context && Others(s, step, p).status.Ready?)
  {
    OthersInPrepared(s, step, p);
    PreparedIsSound(s, step);
    NextIsPrepared(s, step);
    if Switches(s, step) {
      var k := SwitchNextTakesFirstReady(Prepared(s, step));
    }
  }

  // ---- The dead stay dead --------------------------------------------------------------

  lemma DeadStaysDead(s: State, step: Step, p: Pid)
    requires Inv(s) && Admissible(s, step) && p in s.processes && s.processes[p].status.Dead?
    ensures p in Next(s, step).processes && Next(s, step).processes[p].status.Dead?
  {
    CurrentIsLive(s);
    hide Inv;
    hide Next;
    OthersAfterStep(s, step, p);
    if Answer(s, step, p).Some? {
      OnlyBlockedAreWoken(s, step, p);
    }
  }

  lemma CurrentIsLive(s: State)
    requires Inv(s)
    ensures s.current in s.processes && !s.processes[s.current].status.Dead?
  {
  }

  lemma {:induction false} DeadForever(s: State, steps: seq<Step>, p: Pid)
    requires Inv(s) && Allowed(s, steps) && p in s.processes && s.processes[p].status.Dead?
    ensures p in Run(s, steps).processes && Run(s, steps).processes[p].status.Dead?
    decreases |steps|
  {
    if steps != [] {
      DeadStaysDead(s, steps[0], p);
      StepKeepsInv(s, steps[0]);
      DeadForever(Next(s, steps[0]), steps[1..], p);
    }
  }

  // ---- Exit codes ----------------------------------------------------------------------

  /** The pid that this step kills, and the exit code it records. */
  ghost predicate Kills(s: State, step: Step, pid: Pid, code: int) {
    || (step == Exit(code) && pid == s.current)
    || (step == SysKill(pid) && pid != KERNEL_PID && pid in s.processes && code == 0xdead)
  }

  lemma KillsRecordsCode(s: State, step: Step, pid: Pid, code: int)
    requires Inv(s) && Admissible(s, step) && Kills(s, step, pid, code)
    ensures ExitCode(Next(s, step), pid) == Some(code)
  {
    assert forall place :: !Waits(s, s.current, place);
    KillEffect(s, pid, code);
    NextIsPrepared(s, step);
    assert Prepared(s, step) == Kill(s, pid, code);
    if Switches(s, step) {
      PreparedIsSound(s, step);
      var k := SwitchNextTakesFirstReady(Prepared(s, step));
    }
  }

  /** Whoever dies in a step, all processes waiting for it leave that step current or
    * queued, with the exit code recorded in the same step as their answer. */
  lemma ExitWakesAllWaiters(s: State, step: Step, pid: Pid, code: int, w: Pid)
    requires Inv(s) && Admissible(s, step) && Kills(s, step, pid, code) && w in WaitersOf(s, pid)
    ensures var t := Next(s, step);
      && ExitCode(t, pid) == Some(code)
      && w in t.processes && !IsEnlisted(t, w)
      && (t.current == w ==> t.cpu.rax == AsUsize(code))
      && (t.current != w ==>
            w in t.readyQueue && t.processes[w].status.Ready? && t.processes[w].context.rax == AsUsize(code))
  {
    KillsRecordsCode(s, step, pid, code);
    OnlyBlockedAreWoken(s, step, w);
    OthersAfterStep(s, step, w);
    StepKeepsInv(s, step);
    assert forall place :: !Waits(Next(s, step), w, place);
  }
}
