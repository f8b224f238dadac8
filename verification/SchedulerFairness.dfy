/** Fair turns and the two returns of `fork`. */
module SchedulerFairness {
  import opened Common
  import opened Scheduler
  import opened SchedulerInvariant
  import opened SchedulerRuns

  // ---- Fair turns ----------------------------------------------------------------------

  ghost function SwitchCount(s: State, steps: seq<Step>): nat
    decreases |steps|
  {
    if steps == [] then 0
    else (if Switches(s, steps[0]) then 1 else 0) + SwitchCount(Next(s, steps[0]), steps[1..])
  }

  /** At some point of the run `p` is current or dead. */
  ghost predicate RunsOrDies(s: State, steps: seq<Step>, p: Pid)
    decreases |steps|
  {
    || s.current == p
    || (p in s.processes && s.processes[p].status.Dead?)
    || (steps != [] && RunsOrDies(Next(s, steps[0]), steps[1..], p))
  }

  /** A switch takes the process or moves it forward. */
  lemma SwitchMovesForward(u: State, p: Pid, i: nat) returns (j: nat)
    requires Parting(u) && At(u, p, i)
    ensures SwitchNext(u).current == p || (At(SwitchNext(u), p, j) && j < i)
  {
    var k := SwitchNextTakesFirstReady(u);
    j := if k < i then i - k - 1 else 0;
  }

  ghost predicate At(s: State, p: Pid, j: nat) {
    p in s.processes && s.processes[p].status.Ready? && j < |s.readyQueue| && s.readyQueue[j] == p
  }

  /** A queued ready process never moves back, and each switch moves it forward. */
  lemma MovesForward(s: State, step: Step, p: Pid, i: nat) returns (j: nat)
    requires Inv(s) && Admissible(s, step) && At(s, p, i)
    ensures var t := Next(s, step);
      || t.current == p
      || (p in t.processes && t.processes[p].status.Dead?)
      || (At(t, p, j) && j <= i && (Switches(s, step) ==> j < i))
  {
    assert p in s.readyQueue;
    var u := Prepared(s, step);
    OthersInPrepared(s, step, p);
    if Answer(s, step, p).Some? {
      OnlyBlockedAreWoken(s, step, p);
    }
    NextIsPrepared(s, step);
    assert u.readyQueue[i] == p;
    j := i;
    if Switches(s, step) {
      PreparedIsSound(s, step);
      if u.processes[p].status.Ready? {
        j := SwitchMovesForward(u, p, i);
      } else {
        OthersAfterStep(s, step, p);
      }
    }
  }

  /** A ready process at index `i` of the queue becomes current, or is killed, before
    * `switch_next` has been called `i + 1` times, whatever steps come between. */
  lemma {:induction false} ReadyRunsSoon(s: State, steps: seq<Step>, p: Pid, i: nat)
    requires Inv(s) && Allowed(s, steps)
    requires At(s, p, i)
    requires SwitchCount(s, steps) >= i + 1
    ensures RunsOrDies(s, steps, p)
    decreases |steps|
  {
    var t := Next(s, steps[0]);
    var j := MovesForward(s, steps[0], p, i);
    StepKeepsInv(s, steps[0]);
    if t.current == p || (p in t.processes && t.processes[p].status.Dead?) {
      assert RunsOrDies(t, steps[1..], p);
    } else {
      ReadyRunsSoon(t, steps[1..], p, j);
    }
  }

  // ---- Fork returns twice --------------------------------------------------------------

  /** Parent and child before the switch. */
  lemma ForkedRecords(s: State, offset: nat)
    requires Inv(s) && s.nextPid + 1 < PID_MODULUS
    ensures var u, child := Forked(s, offset), s.nextPid;
      && child !in s.processes && child != s.current && u.nextPid == child + 1
      && u.current == s.current && u.readyQueue == s.readyQueue + [child, s.current]
      && child in u.processes && s.current in u.processes
      && u.processes[s.current].status.Ready? && u.processes[s.current].context == s.cpu.(rax := child)
      && u.processes[child].status.Ready?
      && u.processes[child].context == s.cpu.(rax := 0, rsp := AsUsize(s.cpu.rsp + offset))
      && u.processes[child].data == s.processes[s.current].data
      && u.processes[child].exitCode.None? && u.processes[child].children == u.processes[child].ticks == 0
  {
    assert s.nextPid !in s.processes;
  }

  /** The child stands before its parent in the queue, so the first ready process is
    * not the parent. */
  lemma ChildComesFirst(q: seq<Pid>, child: Pid, parent: Pid, k: nat)
    requires k <= |q| && NoDuplicates(q + [child, parent])
    ensures (q + [child, parent])[k] != parent && parent in (q + [child, parent])[k + 1..]
  {
    var r := q + [child, parent];
    assert r[|q| + 1] == parent && r[k + 1..][|q| - k] == parent;
  }

  /** The step that forks never goes on with the parent. So the parent always receives
    * the child's pid by a later restore, and the child starts with `rax` zero, a moved
    * stack pointer and otherwise the parent's registers and semaphores. */
  lemma ForkReturnsTwice(s: State, offset: nat)
    requires Inv(s) && s.nextPid + 1 < PID_MODULUS
    ensures var t, child := ForkStep(s, offset), s.nextPid;
      && t.current != s.current && s.current in t.readyQueue
      && child !in s.processes && child in t.processes && s.current in t.processes && t.nextPid == child + 1
      && t.processes[s.current].context == s.cpu.(rax := child)
      && t.processes[s.current].status.Ready?
      && (if t.current == child then t.cpu else t.processes[child].context)
           == s.cpu.(rax := 0, rsp := AsUsize(s.cpu.rsp + offset))
      && t.processes[child].data == s.processes[s.current].data
      && t.processes[child].exitCode.None? && t.processes[child].children == t.processes[child].ticks == 0
  {
    var u, child := Forked(s, offset), s.nextPid;
    ForkKeepsInv(s, offset);
    ForkedRecords(s, offset);
    var k := SwitchNextTakesFirstReady(u);
    assert k <= |s.readyQueue| by {
      assert u.readyQueue[|s.readyQueue|] == child;
    }
    ChildComesFirst(s.readyQueue, child, s.current, k);
    assert ForkStep(s, offset) == SwitchNext(u);
  }
}
