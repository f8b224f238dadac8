/** Saved contexts: what a process finds in its registers when it runs again. */
module SchedulerContexts {
  import opened Common
  import opened Scheduler
  import opened SchedulerInvariant
  import opened SchedulerRuns

  /** Process `p` is off the CPU and the last of these steps brings it back. */
  ghost predicate Resumes(s: State, steps: seq<Step>, p: Pid)
    decreases |steps|
  {
    && steps != [] && s.current != p
    && (if |steps| == 1 then Next(s, steps[0]).current == p else Resumes(Next(s, steps[0]), steps[1..], p))
  }

  /** How the current process leaves the CPU alive, and with what saved context. */
  ghost predicate Left(s: State, step: Step, t: State) {
    && s.current in t.processes
    && var p := t.processes[s.current];
       match step
       case Tick => p.status.Ready? && p.context == s.cpu
       case Fork(_) => p.status.Ready? && p.context == s.cpu.(rax := s.nextPid)
       case WaitPid(q) =>
         p.status.Blocked? && p.context == s.cpu && Waits(t, s.current, ExitOf(q))
       case SemWait(key) =>
         p.status.Blocked? && p.context == s.cpu
         && Alive(s, s.current) && Waits(t, s.current, SemaphoreOf(s.processes[s.current].data.value, key))
       case _ => p.status.Dead?
  }

  lemma LeavesPrepared(s: State, step: Step)
    requires Inv(s) && Admissible(s, step) && Switches(s, step)
    ensures Left(s, step, Prepared(s, step))
  {
    CurrentIsFree(s);
    NewPidIsFree(s);
    match step
    case Exit(ret) => KillEffect(s, s.current, ret); assert Prepared(s, step) == Kill(s, s.current, ret);
    case SysKill(pid) => KillEffect(s, pid, KILLED); assert Prepared(s, step) == Kill(s, pid, KILLED);
    case _ => hide Inv; LeavesAlive(s, step);
  }

  lemma LeavesAlive(s: State, step: Step)
    requires CurrentSet(s).Some? && s.nextPid !in s.processes && Switches(s, step)
    requires step.Tick? || step.Fork? || step.WaitPid? || step.SemWait?
    ensures Left(s, step, Prepared(s, step))
  {
    var t := Prepared(s, step);
    match step
    case WaitPid(q) => assert Waits(t, s.current, ExitOf(q));
    case SemWait(key) =>
      var id := s.processes[s.current].data.value;
      assert t.sets[id][key].waitQueue == s.sets[id][key].waitQueue + [s.current];
      assert Waits(t, s.current, SemaphoreOf(id, key));
    case Fork(_) => assert s.nextPid != s.current;
    case _ =>
  }

  /** The switch to another process changes nothing of it. */
  lemma LeftSurvivesSwitch(s: State, step: Step, u: State)
    requires Parting(u) && u.current == s.current && Left(s, step, u) && SwitchNext(u).current != s.current
    ensures Left(s, step, SwitchNext(u))
  {
    var k := SwitchNextTakesFirstReady(u);
  }

  lemma LeavesCpu(s: State, step: Step)
    requires Inv(s) && Admissible(s, step) && Next(s, step).current != s.current
    ensures Switches(s, step) && Left(s, step, Next(s, step))
  {
    NextIsPrepared(s, step);
    if Switches(s, step) {
      LeavesPrepared(s, step);
      PreparedIsSound(s, step);
      PreparedKeepsCurrent(s, step);
      LeftSurvivesSwitch(s, step, Prepared(s, step));
    } else {
      StaysOnCpu(s, step);
    }
  }

  lemma PreparedKeepsCurrent(s: State, step: Step)
    requires Inv(s) && Admissible(s, step)
    ensures Prepared(s, step).current == s.current
  {
    CurrentIsFree(s);
    if step.Exit? {
      KillEffect(s, s.current, step.ret);
    } else if step.SysKill? && step.pid != KERNEL_PID && step.pid in s.processes {
      KillEffect(s, step.pid, KILLED);
    }
  }

  lemma StaysOnCpu(s: State, step: Step)
    requires Inv(s) && Admissible(s, step) && !Switches(s, step)
    ensures Next(s, step).current == s.current
  {
    PreparedKeepsCurrent(s, step);
  }

  lemma KillEnlistsNobody(s: State, pid: Pid, ret: int, p: Pid, place: Place)
    requires Inv(s) && (pid in s.processes ==> !IsEnlisted(s, pid)) && Waits(Kill(s, pid, ret), p, place)
    ensures Waits(s, p, place)
  {
    if pid in s.processes {
      KillEffect(s, pid, ret);
    }
  }

  lemma SignalEnlistsNobody(s: State, key: nat, p: Pid, place: Place)
    requires CurrentSet(s).Some? && Waits(SemSignalStep(s, key), p, place)
    ensures Waits(s, p, place)
  {
  }

  lemma WaitPidEnlistsCurrent(s: State, q: Pid, p: Pid, place: Place)
    requires p != s.current && Waits(Prepared(s, WaitPid(q)), p, place)
    ensures Waits(s, p, place)
  {
  }

  lemma SemWaitEnlistsCurrent(s: State, key: nat, p: Pid, place: Place)
    requires CurrentSet(s).Some? && p != s.current && Waits(Prepared(s, SemWait(key)), p, place)
    ensures Waits(s, p, place)
  {
  }

  lemma OthersEnlistNobody(s: State, step: Step, p: Pid, place: Place)
    requires CurrentSet(s).Some? && Waits(Prepared(s, step), p, place)
    requires step.Tick? || step.Compute? || step.Fork? || step.Spawn? || step.NewSem? || step.RemoveSem?
    ensures Waits(s, p, place)
  {
  }

  lemma PreparedEnlists(s: State, step: Step, p: Pid, place: Place)
    requires Inv(s) && Admissible(s, step) && p != s.current && Waits(Prepared(s, step), p, place)
    ensures Waits(s, p, place)
  {
    CurrentIsFree(s);
    hide Inv;
    hide Waits;
    hide IsEnlisted;
    match step
    case Exit(ret) => KillEnlistsNobody(s, s.current, ret, p, place);
    case SysKill(pid) => if pid != KERNEL_PID { KillEnlistsNobody(s, pid, KILLED, p, place); }
    case SemSignal(key) => SignalEnlistsNobody(s, key, p, place);
    case WaitPid(q) => WaitPidEnlistsCurrent(s, q, p, place);
    case SemWait(key) => SemWaitEnlistsCurrent(s, key, p, place);
    case _ => OthersEnlistNobody(s, step, p, place);
  }

  /** Only the current process enlists itself anywhere. */
  lemma NobodyElseEnlists(s: State, step: Step, p: Pid, place: Place)
    requires Inv(s) && Admissible(s, step) && p != s.current && Waits(Next(s, step), p, place)
    ensures Waits(s, p, place)
  {
    NextIsPrepared(s, step);
    if Switches(s, step) {
      PreparedIsSound(s, step);
      var k := SwitchNextTakesFirstReady(Prepared(s, step));
    }
    PreparedEnlists(s, step, p, place);
  }

  /** The answer depends on where the process is enlisted: zero from a semaphore, the
    * exit code that the step records from a process. */
  lemma AnswerMatchesPlace(s: State, step: Step, p: Pid) returns (place: Place)
    requires Inv(s) && Admissible(s, step) && Answer(s, step, p).Some?
    ensures Waits(s, p, place)
    ensures place.SemaphoreOf? ==> Answer(s, step, p).value == 0
    ensures place.ExitOf? ==> Kills(s, step, place.pid, Answer(s, step, p).value)
  {
    place :=
      if step.Exit? then ExitOf(s.current)
      else if step.SysKill? then ExitOf(step.pid)
      else SemaphoreOf(s.processes[s.current].data.value, step.key);
  }

  /** A ready process resumes with exactly the context that was saved for it. */
  lemma {:induction false} ReadyResumes(s: State, steps: seq<Step>, p: Pid)
    requires Inv(s) && Allowed(s, steps) && Resumes(s, steps, p)
    requires p in s.processes && s.processes[p].status.Ready?
    ensures Run(s, steps).cpu == s.processes[p].context
    decreases |steps|
  {
    var t := Next(s, steps[0]);
    OthersAfterStep(s, steps[0], p);
    StepKeepsInv(s, steps[0]);
    if Answer(s, steps[0], p).Some? {
      OnlyBlockedAreWoken(s, steps[0], p);
    }
    if |steps| > 1 {
      if steps[0] == SysKill(p) && p != KERNEL_PID {
        DeadNeverResumes(t, steps[1..], p);
      }
      ReadyResumes(t, steps[1..], p);
    }
  }

  lemma {:induction false} DeadNeverResumes(s: State, steps: seq<Step>, p: Pid)
    requires Inv(s) && Allowed(s, steps) && p in s.processes && s.processes[p].status.Dead?
    ensures !Resumes(s, steps, p)
    decreases |steps|
  {
    if steps != [] {
      DeadStaysDead(s, steps[0], p);
      StepKeepsInv(s, steps[0]);
      DeadNeverResumes(Next(s, steps[0]), steps[1..], p);
    }
  }

  /** The answer that a process enlisted at `place` may find in its `rax`. */
  ghost predicate Answered(s: State, steps: seq<Step>, place: Place, rax: nat) {
    match place
    case SemaphoreOf(_, _) => rax == 0
    case ExitOf(q) =>
      exists n: nat, ret :: n <= |steps| && ExitCode(Run(s, steps[..n]), q) == Some(ret) && rax == AsUsize(ret)
  }

  lemma AnsweredAtOnce(s: State, steps: seq<Step>, q: Pid, ret: int)
    requires steps != [] && ExitCode(Next(s, steps[0]), q) == Some(ret)
    ensures Answered(s, steps, ExitOf(q), AsUsize(ret))
  {
    assert steps[..1] == [steps[0]] && steps[..1][1..] == [];
    assert ExitCode(Run(s, steps[..1]), q) == Some(ret);
  }

  lemma AnsweredLater(s: State, steps: seq<Step>, place: Place, rax: nat)
    requires steps != [] && Answered(Next(s, steps[0]), steps[1..], place, rax)
    ensures Answered(s, steps, place, rax)
  {
    if place.ExitOf? {
      var t := Next(s, steps[0]);
      var n: nat, ret :| n <= |steps[1..]| && ExitCode(Run(t, steps[1..][..n]), place.pid) == Some(ret)
        && rax == AsUsize(ret);
      assert steps[..n + 1][1..] == steps[1..][..n];
      assert ExitCode(Run(s, steps[..n + 1]), place.pid) == Some(ret);
    }
  }

  /** The first step wakes the process. */
  lemma WokenResumes(s: State, steps: seq<Step>, p: Pid)
    requires Inv(s) && Allowed(s, steps) && Resumes(s, steps, p)
    requires Answer(s, steps[0], p).Some? && p in s.processes
    ensures Run(s, steps).cpu == s.processes[p].context.(rax := AsUsize(Answer(s, steps[0], p).value))
  {
    OthersAfterStep(s, steps[0], p);
    StepKeepsInv(s, steps[0]);
    if |steps| > 1 {
      ReadyResumes(Next(s, steps[0]), steps[1..], p);
    }
  }

  lemma WokenIsAnswered(s: State, steps: seq<Step>, p: Pid, place: Place)
    requires Inv(s) && steps != [] && Admissible(s, steps[0])
    requires Answer(s, steps[0], p).Some?
    requires forall a | Waits(s, p, a) :: a == place
    ensures Answered(s, steps, place, AsUsize(Answer(s, steps[0], p).value))
  {
    var a := AnswerMatchesPlace(s, steps[0], p);
    if place.ExitOf? {
      KillsRecordsCode(s, steps[0], place.pid, Answer(s, steps[0], p).value);
      AnsweredAtOnce(s, steps, place.pid, Answer(s, steps[0], p).value);
    }
  }

  /** A blocked process resumes with its saved context and the answer it waited for. */
  lemma {:induction false} BlockedResumes(s: State, steps: seq<Step>, p: Pid, place: Place)
    requires Inv(s) && Allowed(s, steps) && Resumes(s, steps, p)
    requires p in s.processes && s.processes[p].status.Blocked?
    requires forall a | Waits(s, p, a) :: a == place
    ensures Run(s, steps).cpu == s.processes[p].context.(rax := Run(s, steps).cpu.rax)
    ensures Answered(s, steps, place, Run(s, steps).cpu.rax)
    decreases |steps|
  {
    if Answer(s, steps[0], p).Some? {
      WokenResumes(s, steps, p);
      WokenIsAnswered(s, steps, p, place);
    } else {
      var t := Next(s, steps[0]);
      OthersAfterStep(s, steps[0], p);
      StepKeepsInv(s, steps[0]);
      if steps[0] == SysKill(p) && p != KERNEL_PID {
        DeadNeverResumes(t, steps[1..], p);
      }
      forall a | Waits(t, p, a) ensures a == place {
        NobodyElseEnlists(s, steps[0], p, a);
      }
      BlockedResumes(t, steps[1..], p, place);
      AnsweredLater(s, steps, place, Run(s, steps).cpu.rax);
    }
  }

  lemma OnePlace(s: State, p: Pid)
    requires Inv(s)
    ensures forall a, b | Waits(s, p, a) && Waits(s, p, b) :: a == b
  {
  }

  /** Whatever other processes do in between, a process that leaves the CPU and comes
    * back finds every register but `rax` as it left it. A preempted process finds
    * `rax` unchanged too, a forking parent finds the child's pid, a semaphore wait
    * answers zero, and waiting for a process answers an exit code it had. */
  lemma ContextSurvives(s: State, first: Step, steps: seq<Step>)
    requires Inv(s) && Admissible(s, first) && Allowed(Next(s, first), steps)
    requires Resumes(Next(s, first), steps, s.current)
    ensures var cpu := Run(Next(s, first), steps).cpu;
      && cpu == s.cpu.(rax := cpu.rax)
      && (first.Tick? ==> cpu.rax == s.cpu.rax)
      && (first.Fork? ==> cpu.rax == s.nextPid)
      && (first.SemWait? ==> cpu.rax == 0)
      && (first.WaitPid? ==> Answered(Next(s, first), steps, ExitOf(first.pid), cpu.rax))
  {
    var t := Next(s, first);
    LeavesCpu(s, first);
    StepKeepsInv(s, first);
    OnePlace(t, s.current);
    hide Inv;
    hide Next;
    hide Waits;
    hide Answered;
    match first
    case Tick => ReadyResumes(t, steps, s.current);
    case Fork(_) => ReadyResumes(t, steps, s.current);
    case WaitPid(q) => BlockedResumes(t, steps, s.current, ExitOf(q));
    case SemWait(key) =>
      BlockedResumes(t, steps, s.current, SemaphoreOf(s.processes[s.current].data.value, key));
    case _ => DeadNeverResumes(t, steps, s.current);
  }
}
