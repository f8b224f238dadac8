/** What system calls answer and what they leave behind: spawned processes, exit codes,
  * semaphores, and the tallies of each process. */
module SchedulerAnswers {
  import opened Common
  import opened Scheduler
  import opened SchedulerInvariant
  import opened SchedulerRuns
  import opened SchedulerContexts
  import Sems = Semaphores

  // ---- Calls that do not leave the CPU ---------------------------------------------------------

  /** The semaphores of the current process. */
  ghost function Mine(s: State): Sems.Semaphores
    requires CurrentSet(s).Some?
  {
    CurrentSet(s).value
  }

  /** What the caller finds in `rax` after a call that does not leave the CPU: zero and one
    * tell success and failure; a signal that wakes somebody and a kill answer nothing. */
  ghost function Rax(s: State, step: Step): nat
    requires CurrentSet(s).Some?
  {
    match step
    case Spawn(_) => s.nextPid
    case WaitPid(q) => if ExitCode(s, q).Some? then AsUsize(ExitCode(s, q).value) else s.cpu.rax
    case NewSem(key, _) => if key in Mine(s) then 1 else 0
    case RemoveSem(key) => if key in Mine(s) then 0 else 1
    case SemWait(key) => if key in Mine(s) then 0 else 1
    case SemSignal(key) => if key !in Mine(s) then 1 else if Mine(s)[key].Value() < 0 then s.cpu.rax else 0
    case _ => s.cpu.rax
  }

  /** A call that does not switch leaves the caller as it is, on the CPU and with all its
    * registers but the answer. */
  lemma CallAnswers(s: State, step: Step)
    requires Inv(s) && Admissible(s, step) && !Switches(s, step)
    ensures CurrentSet(s).Some?
    ensures var t := Next(s, step);
      && t.current == s.current && t.current in t.processes && t.processes[t.current] == s.processes[s.current]
      && t.cpu == if step.Compute? then step.cpu else s.cpu.(rax := Rax(s, step))
  {
    CurrentIsFree(s);
    NewPidIsFree(s);
    match step
    case SysKill(pid) => KillAnswers(s, pid);
    case SemSignal(key) =>
      if key in Mine(s) && Mine(s)[key].waitQueue != [] {
        var id := s.processes[s.current].data.value;
        assert Waits(s, s.sets[id][key].waitQueue[0], SemaphoreOf(id, key));
        assert s.sets[id][key].Settled();
      }
    case _ => hide Inv; hide IsEnlisted;
  }

  lemma KillAnswers(s: State, pid: Pid)
    requires Inv(s) && Admissible(s, SysKill(pid)) && !Switches(s, SysKill(pid))
    ensures var t := Next(s, SysKill(pid));
      && t.current == s.current && t.current in t.processes && t.processes[t.current] == s.processes[s.current]
      && t.cpu == s.cpu
  {
    if pid != KERNEL_PID && pid in s.processes {
      KillEffect(s, pid, KILLED);
      assert !Waits(s, s.current, ExitOf(pid));
    }
  }

  /** A semaphore wait blocks its caller exactly when the semaphore exists and its integer is
    * not positive; a wait for a process exactly when it has no exit code. */
  lemma CallBlocksIff(s: State, step: Step)
    requires Inv(s) && Admissible(s, step) && (step.SemWait? || step.WaitPid?)
    ensures CurrentSet(s).Some?
    ensures var t := Next(s, step);
      && s.current in t.processes
      && (t.processes[s.current].status.Blocked? <==>
            if step.WaitPid? then ExitCode(s, step.pid).None?
            else step.key in Mine(s) && Mine(s)[step.key].Value() <= 0)
      && (t.processes[s.current].status.Blocked? <==> t.current != s.current)
  {
    CurrentIsFree(s);
    StepKeepsInv(s, step);
    if step.SemWait? && step.key in Mine(s) {
      var id := s.processes[s.current].data.value;
      assert s.sets[id][step.key].Settled();
      assert Mine(s)[step.key].Value() <= 0 <==> Mine(s)[step.key].count == 0;
    }
    if Switches(s, step) {
      BlockedLeaves(s, step);
    } else {
      CallAnswers(s, step);
    }
  }

  lemma BlockedLeaves(s: State, step: Step)
    requires Inv(s) && Admissible(s, step) && Switches(s, step) && (step.SemWait? || step.WaitPid?)
    ensures var t := Next(s, step);
      s.current in t.processes && t.processes[s.current].status.Blocked? && t.current != s.current
  {
    LeavesPrepared(s, step);
    PreparedIsSound(s, step);
    PreparedKeepsCurrent(s, step);
    NextIsPrepared(s, step);
    hide Inv;
    hide Prepared;
    hide Next;
    var k := SwitchNextTakesFirstReady(Prepared(s, step));
  }

  // ---- Spawned processes -----------------------------------------------------------------------

  /** A spawned process has a pid that nobody had, stands at the end of the queue with
    * exactly the registers of its entry, and has an empty semaphore set of its own. Nothing
    * else changes, and the caller goes on with the pid as answer. */
  lemma SpawnStarts(s: State, entry: Context)
    requires Inv(s) && s.nextPid + 1 < PID_MODULUS
    ensures var t, pid := SpawnStep(s, entry), s.nextPid;
      && pid !in s.processes && pid in t.processes && t.nextPid == pid + 1
      && t.readyQueue == s.readyQueue + [pid] && t.waitQueue == s.waitQueue
      && t.current == s.current && t.cpu == s.cpu.(rax := pid) && !t.panicked
      && (forall p | p in s.processes :: p in t.processes && t.processes[p] == s.processes[p])
      && (forall p | p in t.processes :: p in s.processes || p == pid)
      && var p := t.processes[pid];
      && p.status.Ready? && p.context == entry && p.exitCode.None? && p.ticks == p.children == 0
      && p.data.Some? && p.data.value in t.sets && t.sets[p.data.value] == map[]
      && (forall q | q in t.processes && q != pid :: t.processes[q].data != p.data)
      && (forall id | id in s.sets :: id in t.sets && t.sets[id] == s.sets[id])
  {
    NewPidIsFree(s);
  }

  /** The first time it is current, whatever happens before, it has these registers. */
  lemma SpawnedStartsAtEntry(s: State, entry: Context, steps: seq<Step>)
    requires Inv(s) && s.nextPid + 1 < PID_MODULUS && Admissible(s, Spawn(entry))
    requires Allowed(Next(s, Spawn(entry)), steps) && Resumes(Next(s, Spawn(entry)), steps, s.nextPid)
    ensures Run(Next(s, Spawn(entry)), steps).cpu == entry
  {
    SpawnStarts(s, entry);
    StepKeepsInv(s, Spawn(entry));
    ReadyResumes(Next(s, Spawn(entry)), steps, s.nextPid);
  }

  // ---- Exit codes ------------------------------------------------------------------------------

  lemma ExitCodeAfterStep(s: State, step: Step, q: Pid)
    requires Inv(s) && Admissible(s, step) && ExitCode(s, q).Some?
    ensures ExitCode(Next(s, step), q) == if step == SysKill(q) then Some(0xdead) else ExitCode(s, q)
    ensures ExitCode(Next(s, step), q).Some?
  {
    DeadIsNotCurrent(s, q);
    OthersAfterStep(s, step, q);
    if Answer(s, step, q).Some? {
      OnlyBlockedAreWoken(s, step, q);
    }
    DeadStaysDead(s, step, q);
    StepKeepsInv(s, step);
    CurrentIsLive(Next(s, step));
  }

  lemma DeadIsNotCurrent(s: State, q: Pid)
    requires Inv(s) && ExitCode(s, q).Some?
    ensures q in s.processes && s.processes[q].status.Dead? && q != s.current && q != KERNEL_PID
  {
  }

  /** The exit code of a dead process stays as it was through every run, unless the dead
    * process is killed once more, which replaces it. */
  lemma {:induction false} ExitCodeAfter(s: State, steps: seq<Step>, q: Pid)
    requires Inv(s) && Allowed(s, steps) && ExitCode(s, q).Some?
    ensures ExitCode(Run(s, steps), q) == if SysKill(q) in steps then Some(0xdead) else ExitCode(s, q)
    decreases |steps|
  {
    hide Inv;
    hide ExitCode;
    hide Admissible;
    if steps != [] {
      assert SysKill(q) in steps <==> steps[0] == SysKill(q) || SysKill(q) in steps[1..];
      ExitCodeAfterStep(s, steps[0], q);
      StepKeepsInv(s, steps[0]);
      hide Next;
      ExitCodeAfter(Next(s, steps[0]), steps[1..], q);
    }
  }

  /** Whoever waits for a process that has died gets the code it died with at once, however
    * long ago that was: the caller stays on the CPU and nothing but its `rax` changes. After
    * another kill of the dead process it is the code of that kill. */
  lemma WaitingForTheDead(s: State, death: Step, q: Pid, code: int, steps: seq<Step>)
    requires Inv(s) && Admissible(s, death) && Kills(s, death, q, code) && Allowed(Next(s, death), steps)
    ensures var t := Run(Next(s, death), steps);
      var answer := if SysKill(q) in steps then 0xdead else code;
      Next(t, WaitPid(q)) == t.(cpu := t.cpu.(rax := AsUsize(answer)))
  {
    var u := Next(s, death);
    KillsRecordsCode(s, death, q, code);
    StepKeepsInv(s, death);
    hide Inv;
    hide Next;
    hide Allowed;
    ExitCodeAfter(u, steps, q);
    AnsweredByTheDead(Run(u, steps), q);
  }

  /** `usize as isize`. */
  ghost function AsIsize(x: nat): int { if x < 0x8000_0000_0000_0000 then x else x - WORD_MODULUS }

  /** The waiting program, which reads the answer as a signed number, finds the exit code. */
  lemma ExitCodeComesBack(code: int)
    requires -0x8000_0000_0000_0000 <= code < 0x8000_0000_0000_0000
    ensures AsIsize(AsUsize(code)) == code
  {
  }

  lemma AnsweredByTheDead(s: State, q: Pid)
    requires ExitCode(s, q).Some?
    ensures Next(s, WaitPid(q)) == s.(cpu := s.cpu.(rax := AsUsize(ExitCode(s, q).value)))
  {
  }

  // ---- Semaphores ------------------------------------------------------------------------------

  /** The operation of a step on the semaphores of the current process. */
  ghost function OpOf(s: State, step: Step): Option<Sems.Op> {
    match step
    case NewSem(key, value) => Some(Sems.Insert(key, value))
    case RemoveSem(key) => Some(Sems.Remove(key))
    case SemWait(key) => Some(Sems.Wait(key, s.current))
    case SemSignal(key) => Some(Sems.Signal(key))
    case _ => None
  }

  /** The current process is one of those that share the set. */
  ghost predicate Shares(s: State, id: nat) { Alive(s, s.current) && s.processes[s.current].data.value == id }

  /** The operations of one step on a semaphore set. */
  ghost function OpsOf(s: State, step: Step, id: nat): seq<Sems.Op> {
    if Shares(s, id) && OpOf(s, step).Some? then [OpOf(s, step).value] else []
  }

  ghost function Trace(s: State, steps: seq<Step>, id: nat): seq<Sems.Op>
    decreases |steps|
  {
    if steps == [] then [] else OpsOf(s, steps[0], id) + Trace(Next(s, steps[0]), steps[1..], id)
  }

  lemma SetsInPrepared(s: State, step: Step, id: nat)
    requires Inv(s) && Admissible(s, step) && id in s.sets
    ensures id in Prepared(s, step).sets
    ensures Prepared(s, step).sets[id] == Sems.Run(s.sets[id], OpsOf(s, step, id))
  {
    CurrentIsFree(s);
    SetIsNotNew(s, id);
    OneOp(s.sets[id], OpsOf(s, step, id));
    hide Sems.Run;
    match step
    case Exit(ret) => SetsAfterDeath(s, step, id);
    case SysKill(pid) => SetsAfterDeath(s, step, id);
    case SemWait(key) => hide Inv; SetsAfterWait(s, key, id);
    case SemSignal(key) => hide Inv; SetsAfterSignal(s, key, id);
    case NewSem(_, _) => hide Inv; SetsAfterMake(s, step, id);
    case RemoveSem(_) => hide Inv; SetsAfterMake(s, step, id);
    case _ => hide Inv; hide IsEnlisted; SetsAfterOther(s, step, id);
  }

  lemma SetsAfterDeath(s: State, step: Step, id: nat)
    requires Inv(s) && Admissible(s, step) && id in s.sets && (step.Exit? || step.SysKill?)
    ensures Prepared(s, step).sets == s.sets
  {
    CurrentIsFree(s);
    if step.Exit? {
      KillEffect(s, s.current, step.ret);
    } else if step.pid != KERNEL_PID && step.pid in s.processes {
      KillEffect(s, step.pid, KILLED);
    }
  }

  lemma SetIsNotNew(s: State, id: nat)
    requires Inv(s) && id in s.sets
    ensures id != s.nextSet
  {
  }

  /** The set after an operation. */
  ghost function Operated(s: State, step: Step, id: nat): Sems.Semaphores
    requires id in s.sets
  {
    if OpsOf(s, step, id) == [] then s.sets[id] else Sems.Apply(s.sets[id], OpsOf(s, step, id)[0]).0
  }

  lemma SetsAfterWait(s: State, key: nat, id: nat)
    requires CurrentSet(s).Some? && id in s.sets
    ensures id in Prepared(s, SemWait(key)).sets
    ensures Prepared(s, SemWait(key)).sets[id] == Operated(s, SemWait(key), id)
  {
    hide SwitchNext;
  }

  lemma SetsAfterSignal(s: State, key: nat, id: nat)
    requires CurrentSet(s).Some? && id in s.sets
    ensures id in Prepared(s, SemSignal(key)).sets
    ensures Prepared(s, SemSignal(key)).sets[id] == Operated(s, SemSignal(key), id)
  {
    hide Sems.Apply;
  }

  lemma SetsAfterMake(s: State, step: Step, id: nat)
    requires CurrentSet(s).Some? && id in s.sets && (step.NewSem? || step.RemoveSem?)
    ensures id in Prepared(s, step).sets && Prepared(s, step).sets[id] == Operated(s, step, id)
  {
    hide Sems.Apply;
  }

  lemma SetsAfterOther(s: State, step: Step, id: nat)
    requires CurrentSet(s).Some? && id in s.sets && id != s.nextSet
    requires OpOf(s, step).None? && !step.Exit? && !step.SysKill?
    ensures id in Prepared(s, step).sets && Prepared(s, step).sets[id] == Operated(s, step, id)
  {
    hide Sems.Apply;
  }

  lemma OneOp(sems: Sems.Semaphores, ops: seq<Sems.Op>)
    requires |ops| <= 1
    ensures Sems.Run(sems, ops) == if ops == [] then sems else Sems.Apply(sems, ops[0]).0
  {
  }

  /** Steps change a semaphore set by their own operation only. */
  lemma SetsAfterStep(s: State, step: Step, id: nat)
    requires Inv(s) && Admissible(s, step) && id in s.sets
    ensures id in Next(s, step).sets
    ensures Next(s, step).sets[id] == Sems.Run(s.sets[id], OpsOf(s, step, id))
  {
    SetsInPrepared(s, step, id);
    NextIsPrepared(s, step);
    if Switches(s, step) {
      PreparedIsSound(s, step);
      var k := SwitchNextTakesFirstReady(Prepared(s, step));
    }
  }

  lemma {:induction false} RunAppends(sems: Sems.Semaphores, first: seq<Sems.Op>, rest: seq<Sems.Op>)
    ensures Sems.Run(sems, first + rest) == Sems.Run(Sems.Run(sems, first), rest)
    decreases first
  {
    if first == [] {
      assert first + rest == rest;
    } else {
      assert (first + rest)[0] == first[0] && (first + rest)[1..] == first[1..] + rest;
      RunAppends(Sems.Apply(sems, first[0]).0, first[1..], rest);
    }
  }

  /** Through every run of the kernel each semaphore set is what the operations of those who
    * share it make of it, in the order in which they were called. */
  lemma {:induction false} SetsFollowTrace(s: State, steps: seq<Step>, id: nat)
    requires Inv(s) && Allowed(s, steps) && id in s.sets
    ensures id in Run(s, steps).sets
    ensures Run(s, steps).sets[id] == Sems.Run(s.sets[id], Trace(s, steps, id))
    decreases |steps|
  {
    hide Inv;
    hide Admissible;
    if steps != [] {
      var t := Next(s, steps[0]);
      SetsAfterStep(s, steps[0], id);
      StepKeepsInv(s, steps[0]);
      hide Next;
      hide OpsOf;
      SetsFollowTrace(t, steps[1..], id);
      RunAppends(s.sets[id], OpsOf(s, steps[0], id), Trace(t, steps[1..], id));
    }
  }

  /** From the call that creates a semaphore on, whatever the kernel and its processes do, as
    * long as nobody who shares the set creates or removes the key, the semaphore is `value +
    * signals - waits`, and its queue holds who was blocked and not woken, in arrival order. */
  lemma SemaphoreSinceCreation(s: State, key: nat, value: nat, steps: seq<Step>)
    requires Inv(s) && Admissible(s, NewSem(key, value)) && Allowed(Next(s, NewSem(key, value)), steps)
    requires Alive(s, s.current)
    requires var t, id := Next(s, NewSem(key, value)), s.processes[s.current].data.value;
      && Sems.Keeps(Trace(t, steps, id), key)
      && value + Sems.Signals(Trace(t, steps, id), key) < WORD_MODULUS
    ensures var t, id := Next(s, NewSem(key, value)), s.processes[s.current].data.value;
      var u, ops := Run(t, steps), Trace(t, steps, id);
      && id in t.sets && id in u.sets && key in u.sets[id] && u.sets[id][key].Settled()
      && u.sets[id][key].Value() == value + Sems.Signals(ops, key) - Sems.Waits(ops, key)
      && Sems.Woken(t.sets[id], ops, key) + u.sets[id][key].waitQueue == Sems.Blocked(t.sets[id], ops, key)
  {
    var t, id := Next(s, NewSem(key, value)), s.processes[s.current].data.value;
    CurrentIsFree(s);
    SetsAfterStep(s, NewSem(key, value), id);
    OneOp(s.sets[id], OpsOf(s, NewSem(key, value), id));
    StepKeepsInv(s, NewSem(key, value));
    hide Inv;
    hide Next;
    hide Admissible;
    hide Sems.Apply;
    SetsFollowTrace(t, steps, id);
    Sems.CreatedRefinesInteger(s.sets[id], key, value, Trace(t, steps, id));
  }

  // ---- Tallies ---------------------------------------------------------------------------------

  /** Fork adds a child to the current process; leaving the CPU alive adds a tick. */
  lemma TalliesAfterStep(s: State, step: Step, p: Pid)
    requires Inv(s) && Admissible(s, step) && p in s.processes
    ensures var t := Next(s, step);
      && p in t.processes
      && t.processes[p].children == s.processes[p].children + (if step.Fork? && p == s.current then 1 else 0)
      && t.processes[p].ticks == s.processes[p].ticks + (if p == s.current && SavesCurrent(s, step) then 1 else 0)
  {
    CurrentIsFree(s);
    NewPidIsFree(s);
    TalliesInPrepared(s, step, p);
    NextIsPrepared(s, step);
    if Switches(s, step) {
      PreparedIsSound(s, step);
      var k := SwitchNextTakesFirstReady(Prepared(s, step));
    }
  }

  ghost predicate SavesCurrent(s: State, step: Step) { Switches(s, step) && !step.Exit? && !step.SysKill? }

  /** The process before and after the step, before any switch. */
  ghost predicate Tallied(s: State, step: Step, p: Process, q: Process, own: bool) {
    && q.children == p.children + (if step.Fork? && own then 1 else 0)
    && q.ticks == p.ticks + (if own && SavesCurrent(s, step) then 1 else 0)
  }

  lemma TalliesInPrepared(s: State, step: Step, p: Pid)
    requires Inv(s) && Admissible(s, step) && p in s.processes
    ensures p in Prepared(s, step).processes
    ensures Tallied(s, step, s.processes[p], Prepared(s, step).processes[p], p == s.current)
  {
    CurrentIsFree(s);
    NewPidIsFree(s);
    hide Inv;
    hide Prepared;
    hide Next;
    hide Admissible;
    if p != s.current {
      OtherIsTallied(s, step, p);
    } else if !Switches(s, step) {
      hide Switches;
      CallAnswers(s, step);
      NextIsPrepared(s, step);
    } else if step.Exit? || step.SysKill? {
      DeadIsTallied(s, step);
    } else {
      SavedIsTallied(s, step);
    }
  }

  lemma OtherIsTallied(s: State, step: Step, p: Pid)
    requires Inv(s) && Admissible(s, step) && p in s.processes && p != s.current
    ensures p in Prepared(s, step).processes
    ensures Tallied(s, step, s.processes[p], Prepared(s, step).processes[p], false)
  {
    hide Inv;
    hide Prepared;
    hide Admissible;
    hide Answer;
    hide Switches;
    OthersInPrepared(s, step, p);
  }

  lemma DeadIsTallied(s: State, step: Step)
    requires Inv(s) && Switches(s, step) && (step.Exit? || step.SysKill?)
    ensures s.current in Prepared(s, step).processes
    ensures Tallied(s, step, s.processes[s.current], Prepared(s, step).processes[s.current], true)
  {
    CurrentIsFree(s);
    KillEffect(s, s.current, if step.Exit? then step.ret else KILLED);
  }

  lemma SavedIsTallied(s: State, step: Step)
    requires CurrentSet(s).Some? && s.nextPid !in s.processes && SavesCurrent(s, step)
    ensures s.current in Prepared(s, step).processes
    ensures Tallied(s, step, s.processes[s.current], Prepared(s, step).processes[s.current], true)
  {
    hide Sems.Apply;
  }

  /** The steps of a run in which this process forked. */
  ghost function ForksBy(s: State, steps: seq<Step>, p: Pid): nat
    decreases |steps|
  {
    if steps == [] then 0
    else (if steps[0].Fork? && s.current == p then 1 else 0) + ForksBy(Next(s, steps[0]), steps[1..], p)
  }

  /** The number of children with which fork chooses the first slot for the new stack is the
    * number of forks that the process has made. */
  lemma {:induction false} ChildrenAreForks(s: State, steps: seq<Step>, p: Pid)
    requires Inv(s) && Allowed(s, steps) && p in s.processes
    ensures p in Run(s, steps).processes
    ensures Run(s, steps).processes[p].children == s.processes[p].children + ForksBy(s, steps, p)
    decreases |steps|
  {
    hide Inv;
    hide Admissible;
    if steps != [] {
      TalliesAfterStep(s, steps[0], p);
      StepKeepsInv(s, steps[0]);
      hide Next;
      ChildrenAreForks(Next(s, steps[0]), steps[1..], p);
    }
  }
}
