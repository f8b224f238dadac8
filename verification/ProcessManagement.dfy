/** The process manager as the kernel runs it: one object, updated in place. Each
  * method is proved equal to the state machine of module `Scheduler`. */
module ProcessManagement {
  import opened Common
  import S = Scheduler
  import I = SchedulerInvariant
  import Sems = Semaphores

  lemma WakeLeast(s: S.State, pids: set<S.Pid>, p: S.Pid, ret: int)
    requires p in pids && forall x | x in pids :: p <= x
    ensures S.WakeAll(s, S.Ascending(pids), ret) == S.WakeAll(S.WakeUp(s, p, ret), S.Ascending(pids - {p}), ret)
  {
    hide S.Ascending;
    hide S.WakeUp;
    S.AscendingFrom(pids, p);
    assert ([p] + S.Ascending(pids - {p}))[1..] == S.Ascending(pids - {p});
  }

  lemma WakeNobody(s: S.State, ret: int)
    ensures S.WakeAll(s, S.Ascending({}), ret) == s
  {
  }

  class ProcessManager {
    var processes: map<S.Pid, S.Process>
    var readyQueue: seq<S.Pid>
    var waitQueue: map<S.Pid, set<S.Pid>>
    var current: S.Pid
    var cpu: S.Context
    var nextPid: S.Pid
    var sets: map<nat, Sems.Semaphores>
    var nextSet: nat
    var panicked: bool

    ghost function View(): S.State
      reads this
    {
      S.State(processes, readyQueue, waitQueue, current, cpu, nextPid, sets, nextSet, panicked)
    }

    predicate HasSemaphores()
      reads this
      ensures HasSemaphores() <==> S.CurrentSet(View()).Some?
    {
      current in processes && processes[current].data.Some? && processes[current].data.value in sets
    }

    constructor (context: S.Context)
      ensures View() == S.Boot(context)
    {
      processes := map[S.KERNEL_PID := S.Process(S.Running, context, None, 0, 0, Some(0))];
      readyQueue, waitQueue := [], map[];
      current, cpu, nextPid := S.KERNEL_PID, context, 2;
      sets, nextSet, panicked := map[0 := map[]], 1, false;
    }

    method PushReady(pid: S.Pid)
      modifies this
      ensures View() == S.PushReady(old(View()), pid)
    {
      readyQueue := readyQueue + [pid];
    }

    method SetRax(value: nat)
      modifies this
      ensures View() == S.SetRax(old(View()), value)
    {
      cpu := cpu.(rax := value);
    }

    method SaveCurrent()
      modifies this
      ensures View() == S.SaveCurrent(old(View()))
    {
      if current !in processes {
        panicked := true;
        return;
      }
      var p := processes[current];
      processes := processes[current := p.(ticks := p.ticks + 1, context := cpu, status := S.Ready)];
    }

    method Block(pid: S.Pid)
      modifies this
      ensures View() == S.Block(old(View()), pid)
    {
      if pid in processes {
        processes := processes[pid := processes[pid].(status := S.Blocked)];
      }
    }

    /** Pops the queue until a process is ready. */
    method SwitchNext()
      modifies this
      ensures View() == S.SwitchNext(old(View()))
    {
      while readyQueue != []
        invariant S.SwitchNext(View()) == S.SwitchNext(old(View()))
        decreases |readyQueue|
      {
        var next := readyQueue[0];
        readyQueue := readyQueue[1..];
        if next !in processes {
          panicked := true;
          return;
        }
        var p := processes[next];
        if !p.status.Ready? {
          continue;
        }
        if next != current {
          if p.data.None? {
            panicked := true;
            return;
          }
          cpu := p.context;
          processes := processes[next := p.(status := S.Running)];
          current := next;
        }
        return;
      }
    }

    method WakeUp(pid: S.Pid, ret: int)
      modifies this
      ensures View() == S.WakeUp(old(View()), pid, ret)
    {
      if pid in processes {
        var p := processes[pid];
        processes := processes[pid := p.(context := p.context.(rax := S.AsUsize(ret)), status := S.Ready)];
        PushReady(pid);
      }
    }

    /** Wakes the members of an ordered set, smallest pid first. */
    method WakeWaiters(pids: set<S.Pid>, ret: int)
      modifies this
      ensures View() == S.WakeAll(old(View()), S.Ascending(pids), ret)
    {
      hide S.Ascending;
      hide S.WakeUp;
      var rest := pids;
      while rest != {}
        invariant S.WakeAll(View(), S.Ascending(rest), ret) == S.WakeAll(old(View()), S.Ascending(pids), ret)
        decreases |rest|
      {
        assert S.Least(rest) in rest && forall x | x in rest :: S.Least(rest) <= x;
        var p :| p in rest && forall x | x in rest :: p <= x;
        WakeLeast(View(), rest, p, ret);
        WakeUp(p, ret);
        rest := rest - {p};
      }
      WakeNobody(View(), ret);
    }

    /** Marks the process dead, then wakes everyone who waits for it. */
    method Kill(pid: S.Pid, ret: int)
      modifies this
      ensures View() == S.Kill(old(View()), pid, ret)
    {
      if pid in processes {
        processes := processes[pid := S.Died(processes[pid], ret)];
        if pid in waitQueue {
          var pids := waitQueue[pid];
          waitQueue := waitQueue - {pid};
          WakeWaiters(pids, ret);
        }
      }
    }

    method ForkCurrent(offset: nat)
      requires current in processes
      modifies this
      ensures View() == S.Offspring(old(View()), offset)
    {
      var p, child := processes[current], nextPid;
      var childProcess := S.ChildOf(p, offset);
      nextPid := (child + 1) % S.PID_MODULUS;
      var parent := p.(status := S.Ready, children := p.children + 1, context := p.context.(rax := child));
      processes := processes[current := parent];
      PushReady(child);
      processes := processes[child := childProcess];
    }

    // ---- The atomic steps --------------------------------------------------------------

    method Switch()
      modifies this
      ensures View() == S.Switch(old(View()))
    {
      var pid := current;
      SaveCurrent();
      PushReady(pid);
      SwitchNext();
    }

    method Fork(offset: nat)
      modifies this
      ensures View() == S.ForkStep(old(View()), offset)
    {
      if current !in processes || processes[current].data.None? {
        panicked := true;
        return;
      }
      var parent := current;
      SaveCurrent();
      ForkCurrent(offset);
      PushReady(parent);
      SwitchNext();
    }

    method Spawn(entry: S.Context)
      modifies this
      ensures View() == S.SpawnStep(old(View()), entry)
      ensures S.Alive(old(View()), S.KERNEL_PID) ==>
          && old(nextPid) in processes && processes[old(nextPid)].context == entry
          && readyQueue == old(readyQueue) + [old(nextPid)]
          && current == old(current) && cpu == old(cpu).(rax := old(nextPid))
    {
      if S.KERNEL_PID !in processes || processes[S.KERNEL_PID].data.None? {
        panicked := true;
        return;
      }
      var pid, set_ := nextPid, nextSet;
      nextPid, nextSet := (pid + 1) % S.PID_MODULUS, set_ + 1;
      sets := sets[set_ := map[]];
      processes := processes[pid := S.Process(S.Ready, entry, None, 0, 0, Some(set_))];
      PushReady(pid);
      SetRax(pid);
    }

    method ProcessExit(ret: int)
      modifies this
      ensures View() == S.ExitStep(old(View()), ret)
    {
      Kill(current, ret);
      SwitchNext();
    }

    method SysKill(pid: S.Pid)
      modifies this
      ensures View() == S.KillStep(old(View()), pid)
    {
      if pid == S.KERNEL_PID {
        return;
      }
      if pid == current {
        Kill(current, S.KILLED);
        SwitchNext();
      } else {
        Kill(pid, S.KILLED);
      }
    }

    method WaitPid(pid: S.Pid)
      modifies this
      ensures View() == S.WaitPidStep(old(View()), pid)
      ensures pid in old(processes) && old(processes)[pid].exitCode.Some? ==>
          && processes == old(processes) && readyQueue == old(readyQueue) && waitQueue == old(waitQueue)
          && current == old(current) && cpu == old(cpu).(rax := S.AsUsize(old(processes)[pid].exitCode.value))
    {
      if pid in processes && processes[pid].exitCode.Some? {
        SetRax(S.AsUsize(processes[pid].exitCode.value));
        return;
      }
      var entry := if pid in waitQueue then waitQueue[pid] else {};
      waitQueue := waitQueue[pid := entry + {current}];
      SaveCurrent();
      Block(current);
      SwitchNext();
    }

    method SemWait(key: nat)
      modifies this
      ensures View() == S.SemWaitStep(old(View()), key)
    {
      if !HasSemaphores() {
        panicked := true;
        return;
      }
      var id := processes[current].data.value;
      var (sems, r) := Sems.Apply(sets[id], Sems.Wait(key, current));
      sets := sets[id := sems];
      if r.Ok? {
        SetRax(0);
      } else if r.NotExist? {
        SetRax(1);
      } else {
        SaveCurrent();
        Block(current);
        SwitchNext();
      }
    }

    method SemSignal(key: nat)
      modifies this
      ensures View() == S.SemSignalStep(old(View()), key)
    {
      if !HasSemaphores() {
        panicked := true;
        return;
      }
      var id := processes[current].data.value;
      var (sems, r) := Sems.Apply(sets[id], Sems.Signal(key));
      sets := sets[id := sems];
      if r.Ok? {
        SetRax(0);
      } else if r.NotExist? {
        SetRax(1);
      } else {
        WakeUp(r.pid, 0);
      }
    }

    method NewSem(key: nat, value: nat)
      modifies this
      ensures View() == S.NewSemStep(old(View()), key, value)
      ensures S.CurrentSet(old(View())).Some? ==>
          && S.CurrentSet(View()).Some? && key in S.CurrentSet(View()).value
          && S.CurrentSet(View()).value[key].Value() == value && S.CurrentSet(View()).value[key].waitQueue == []
    {
      if !HasSemaphores() {
        panicked := true;
        return;
      }
      var id := processes[current].data.value;
      var existed := key in sets[id];
      var sems: Sems.Semaphores := sets[id];
      sems := sems[key := Sems.Semaphore(value, [])];
      sets := sets[id := sems];
      SetRax(if existed then 1 else 0);
    }

    method RemoveSem(key: nat)
      modifies this
      ensures View() == S.RemoveSemStep(old(View()), key)
    {
      if !HasSemaphores() {
        panicked := true;
        return;
      }
      var id := processes[current].data.value;
      var existed := key in sets[id];
      sets := sets[id := sets[id] - {key}];
      SetRax(if existed then 0 else 1);
    }

    /** Any step: the object follows the state machine and, when the step is
      * admissible, keeps the invariant; so the kernel does not panic. */
    method Perform(step: S.Step)
      modifies this
      ensures View() == S.Next(old(View()), step)
      ensures I.Inv(old(View())) && I.Admissible(old(View()), step) ==> I.Inv(View()) && !panicked
    {
      hide I.Inv;
      hide I.Admissible;
      match step {
      case Tick => Switch();
      case Compute(context) => cpu := context;
      case Fork(offset) => Fork(offset);
      case Spawn(entry) => Spawn(entry);
      case Exit(ret) => ProcessExit(ret);
      case WaitPid(pid) => WaitPid(pid);
      case SysKill(pid) => SysKill(pid);
      case NewSem(key, value) => NewSem(key, value);
      case RemoveSem(key) => RemoveSem(key);
      case SemWait(key) => SemWait(key);
      case SemSignal(key) => SemSignal(key);
      }
      if I.Inv(old(View())) && I.Admissible(old(View()), step) {
        I.StepKeepsInv(old(View()), step);
        I.InvIsQuiet(View());
      }
    }
  }
}
