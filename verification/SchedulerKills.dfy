/** What becomes of a process that is killed while it waits: it stays on its list, so
  * the next answer from there makes it ready again, without an address space. */
module SchedulerKills {
  import opened Common
  import opened Scheduler
  import opened SchedulerInvariant
  import opened SchedulerRuns
  import opened SchedulerContexts
  import Sems = Semaphores

  // ---- Striking a process off its list ---------------------------------------------------

  ghost function Removed(q: seq<Pid>, p: Pid): seq<Pid> {
    if q == [] then [] else (if q[0] == p then [] else [q[0]]) + Removed(q[1..], p)
  }

  lemma {:induction false} RemovedMembers(q: seq<Pid>, p: Pid)
    ensures forall x :: x in Removed(q, p) <==> x in q && x != p
    ensures NoDuplicates(q) ==> NoDuplicates(Removed(q, p))
  {
    if q != [] {
      assert q == [q[0]] + q[1..];
      RemovedMembers(q[1..], p);
      assert NoDuplicates(q) ==> q[0] !in q[1..];
    }
  }

  lemma {:induction false} RemovedAppend(q: seq<Pid>, x: Pid, p: Pid)
    requires x != p
    ensures Removed(q + [x], p) == Removed(q, p) + [x]
  {
    if q == [] {
      assert q + [x] == [x];
    } else {
      var head := if q[0] == p then [] else [q[0]];
      assert (q + [x])[1..] == q[1..] + [x] && (q + [x])[0] == q[0];
      RemovedAppend(q[1..], x, p);
      assert head + (Removed(q[1..], p) + [x]) == (head + Removed(q[1..], p)) + [x];
    }
  }

  lemma RemovedHead(q: seq<Pid>, p: Pid)
    requires q != [] && q[0] != p
    ensures Removed(q, p) == [q[0]] + Removed(q[1..], p)
    ensures Removed(q, p)[1..] == Removed(q[1..], p)
  {
  }

  ghost function StruckSet(sems: Sems.Semaphores, key: nat, p: Pid): Sems.Semaphores {
    if key in sems && p in sems[key].waitQueue
    then sems[key := sems[key].(waitQueue := Removed(sems[key].waitQueue, p))] else sems
  }

  /** The state in which `p` is no longer enlisted at `place`. */
  ghost function Struck(s: State, p: Pid, place: Place): State {
    if !Waits(s, p, place) then s
    else
      match place
      case ExitOf(q) => s.(waitQueue := s.waitQueue[q := s.waitQueue[q] - {p}])
      case SemaphoreOf(id, key) => s.(sets := s.sets[id := StruckSet(s.sets[id], key, p)])
  }

  lemma StruckWaits(s: State, p: Pid, place: Place, w: Pid, a: Place)
    ensures Waits(Struck(s, p, place), w, a) <==> Waits(s, w, a) && !(w == p && a == place)
  {
    if Waits(s, p, place) && place.SemaphoreOf? {
      RemovedMembers(s.sets[place.set_][place.key].waitQueue, p);
    }
  }

  lemma StruckKeepsInv(s: State, p: Pid, place: Place)
    requires Inv(s) && Waits(s, p, place)
    ensures Inv(Struck(s, p, place)) && !IsEnlisted(Struck(s, p, place), p)
  {
    var t := Struck(s, p, place);
    forall w, a ensures Waits(t, w, a) <==> Waits(s, w, a) && !(w == p && a == place) {
      StruckWaits(s, p, place, w, a);
    }
    if place.SemaphoreOf? {
      RemovedMembers(s.sets[place.set_][place.key].waitQueue, p);
    }
    QuietKeepsInv(s, t);
  }

  // ---- Steps that do not answer the struck process ----------------------------------------------

  ghost function Lists(s: State, from: State): State { s.(waitQueue := from.waitQueue, sets := from.sets) }

  lemma {:induction false} SwitchIgnoresLists(s: State, from: State)
    ensures SwitchNext(Lists(s, from)) == Lists(SwitchNext(s), from)
    decreases |s.readyQueue|
  {
    if s.readyQueue != [] && s.readyQueue[0] in s.processes {
      var next, t := s.readyQueue[0], s.(readyQueue := s.readyQueue[1..]);
      assert Lists(t, from) == Lists(s, from).(readyQueue := s.readyQueue[1..]);
      if s.processes[next].status != Ready {
        SwitchIgnoresLists(t, from);
      } else {
        RestoreIgnoresLists(t, next, from);
        hide Restore;
      }
    }
  }

  lemma RestoreIgnoresLists(s: State, next: Pid, from: State)
    requires next in s.processes
    ensures Restore(Lists(s, from), next) == Lists(Restore(s, next), from)
  {
  }

  lemma {:induction false} SwitchKeepsLists(s: State)
    ensures SwitchNext(s).waitQueue == s.waitQueue && SwitchNext(s).sets == s.sets
    decreases |s.readyQueue|
  {
    if s.readyQueue != [] {
      SwitchKeepsLists(s.(readyQueue := s.readyQueue[1..]));
    }
  }

  lemma {:induction false} WakeAllIgnoresLists(s: State, pids: seq<Pid>, ret: int, from: State)
    ensures WakeAll(Lists(s, from), pids, ret) == Lists(WakeAll(s, pids, ret), from)
    ensures WakeAll(s, pids, ret).waitQueue == s.waitQueue && WakeAll(s, pids, ret).sets == s.sets
    decreases pids
  {
    if pids != [] {
      WakeAllIgnoresLists(WakeUp(s, pids[0], ret), pids[1..], ret, from);
      assert WakeUp(Lists(s, from), pids[0], ret) == Lists(WakeUp(s, pids[0], ret), from);
    }
  }

  lemma SwitchStrikes(s: State, p: Pid, place: Place)
    ensures SwitchNext(Struck(s, p, place)) == Struck(SwitchNext(s), p, place)
  {
    SwitchKeepsLists(s);
    StruckLists(s, SwitchNext(s), p, place);
    SwitchIgnoresLists(s, Struck(s, p, place));
    hide Struck;
    hide SwitchNext;
  }

  /** The step does the same to the struck state. */
  ghost predicate Strikes(s: State, step: Step, p: Pid, place: Place) {
    var t := Struck(s, p, place);
    && (Switches(t, step) <==> Switches(s, step))
    && Struck(Prepared(s, step), p, place) == Prepared(t, step)
  }

  lemma PlainStrikes(s: State, step: Step, p: Pid, place: Place)
    requires Waits(s, p, place) && p != s.current && CurrentSet(s).Some?
    requires step.Tick? || step.Compute? || step.Fork?
    ensures Strikes(s, step, p, place)
  {
    var t := Struck(s, p, place);
    StruckLists(s, Prepared(s, step), p, place);
    hide Struck;
    if step.Fork? {
      ForkIgnoresLists(s, step.offset, t);
      hide Forked;
    }
  }

  lemma ForkIgnoresLists(s: State, offset: nat, from: State)
    requires s.current in s.processes
    ensures Forked(Lists(s, from), offset) == Lists(Forked(s, offset), from)
    ensures Forked(s, offset).waitQueue == s.waitQueue && Forked(s, offset).sets == s.sets
  {
  }

  lemma SpawnStrikes(s: State, entry: Context, p: Pid, place: Place)
    requires Waits(s, p, place) && s.nextSet !in s.sets
    ensures Strikes(s, Spawn(entry), p, place)
  {
    hide StruckSet;
    if place.SemaphoreOf? {
      SwapUpdates(s.sets, s.nextSet, map[], place.set_, StruckSet(s.sets[place.set_], place.key, p));
    }
  }

  lemma SwapUpdates<K, V>(m: map<K, V>, a: K, x: V, b: K, y: V)
    requires a != b
    ensures m[a := x][b := y] == m[b := y][a := x]
  {
  }

  /** An operation that does not wake `p` does the same to the struck set. */
  lemma ApplyStrikes(sems: Sems.Semaphores, op: Sems.Op, key: nat, p: Pid)
    requires key in sems && p in sems[key].waitQueue && (op.Wait? ==> op.pid != p)
    requires op == Sems.Op.Signal(key) ==> sems[key].waitQueue[0] != p
    ensures var (next, r) := Sems.Apply(sems, op);
      Sems.Apply(StruckSet(sems, key, p), op) == (StruckSet(next, key, p), r)
  {
    if op.key == key {
      if op.Wait? {
        RemovedAppend(sems[key].waitQueue, op.pid, p);
      } else if op.Signal? {
        RemovedHead(sems[key].waitQueue, p);
      }
    }
    var (next, r) := Sems.Apply(sems, op);
    assert Sems.Apply(StruckSet(sems, key, p), op).0 == StruckSet(next, key, p);
  }

  lemma SetStrikes(s: State, sems: Sems.Semaphores, p: Pid, place: Place)
    requires Waits(s, p, place) && CurrentSet(s).Some?
    ensures var id := s.processes[s.current].data.value;
      Struck(SetCurrentSet(s, sems), p, place) ==
        SetCurrentSet(Struck(s, p, place),
                      if place.SemaphoreOf? && place.set_ == id then StruckSet(sems, place.key, p) else sems)
  {
    var id := s.processes[s.current].data.value;
    if place.SemaphoreOf? {
      if place.set_ == id {
        hide StruckSet;
        UpdateTwice(s.sets, id, sems, StruckSet(sems, place.key, p));
        UpdateTwice(s.sets, id, StruckSet(s.sets[id], place.key, p), StruckSet(sems, place.key, p));
      } else {
        hide StruckSet;
        SwapUpdates(s.sets, id, sems, place.set_, StruckSet(s.sets[place.set_], place.key, p));
      }
    }
  }

  lemma UpdateTwice<K, V>(m: map<K, V>, a: K, x: V, y: V)
    ensures m[a := x][a := y] == m[a := y]
  {
  }

  /** An operation of the current process on its set. */
  lemma OpStrikes(s: State, op: Sems.Op, p: Pid, place: Place)
    requires Waits(s, p, place) && CurrentSet(s).Some? && (op.Wait? ==> op.pid != p)
    requires op.Signal? ==> Answer(s, SemSignal(op.key), p).None?
    ensures CurrentSet(Struck(s, p, place)).Some?
    ensures var (next, r) := Sems.Apply(CurrentSet(s).value, op);
      var (next', r') := Sems.Apply(CurrentSet(Struck(s, p, place)).value, op);
      && r' == r && Struck(SetCurrentSet(s, next), p, place) == SetCurrentSet(Struck(s, p, place), next')
  {
    hide Sems.Apply;
    var sems := CurrentSet(s).value;
    SetStrikes(s, Sems.Apply(sems, op).0, p, place);
    if place.SemaphoreOf? && place.set_ == s.processes[s.current].data.value {
      ApplyStrikes(sems, op, place.key, p);
    }
  }

  lemma TableStrikes(s: State, step: Step, p: Pid, place: Place)
    requires Waits(s, p, place) && CurrentSet(s).Some? && (step.NewSem? || step.RemoveSem?)
    ensures Strikes(s, step, p, place)
  {
    hide Sems.Apply;
    var op := if step.NewSem? then Sems.Op.Insert(step.key, step.value) else Sems.Op.Remove(step.key);
    var u := SetCurrentSet(s, Sems.Apply(CurrentSet(s).value, op).0);
    OpStrikes(s, op, p, place);
    StruckKeys(s, p, place);
    StruckLists(u, Next(s, step), p, place);
    hide Struck;
  }

  lemma StruckKeys(s: State, p: Pid, place: Place)
    requires CurrentSet(s).Some?
    ensures CurrentSet(Struck(s, p, place)).Some?
    ensures CurrentSet(Struck(s, p, place)).value.Keys == CurrentSet(s).value.Keys
    ensures Struck(s, p, place) == Lists(s, Struck(s, p, place))
  {
  }

  lemma KillStrikes(s: State, pid: Pid, ret: int, p: Pid, place: Place)
    requires Waits(s, p, place) && (pid in s.processes ==> place != ExitOf(pid))
    ensures Struck(Kill(s, pid, ret), p, place) == Kill(Struck(s, p, place), pid, ret)
  {
    if pid in s.processes {
      var t, u, v := Struck(s, p, place), Buried(s, pid, ret), Buried(Struck(s, p, place), pid, ret);
      assert Struck(u, p, place) == v;
      if pid in s.waitQueue {
        WakeAllIgnoresLists(u, Ascending(s.waitQueue[pid]), ret, v);
        assert Lists(u, v) == v;
      } else {
        assert s.waitQueue - {pid} == s.waitQueue && t.waitQueue - {pid} == t.waitQueue;
      }
    }
  }

  lemma EnlistStrikes(s: State, q: Pid, p: Pid, place: Place)
    requires Waits(s, p, place) && p != s.current
    ensures Struck(Enlist(s, q), p, place) == Enlist(Struck(s, p, place), q)
  {
    if place == ExitOf(q) {
      assert s.waitQueue[q] - {p} + {s.current} == s.waitQueue[q] + {s.current} - {p};
    }
    assert Struck(Enlist(s, q), p, place).waitQueue == Enlist(Struck(s, p, place), q).waitQueue;
  }

  lemma SleepStrikes(s: State, p: Pid, place: Place)
    ensures Struck(Asleep(s), p, place) == Asleep(Struck(s, p, place))
  {
    StruckLists(s, Asleep(s), p, place);
    hide Struck;
    var t := Struck(s, p, place);
    assert Asleep(Lists(s, t)) == Lists(Asleep(s), t);
  }

  lemma StruckLists(s: State, t: State, p: Pid, place: Place)
    requires t.waitQueue == s.waitQueue && t.sets == s.sets
    ensures Struck(t, p, place) == Lists(t, Struck(s, p, place))
    ensures Struck(s, p, place) == Lists(s, Struck(s, p, place))
  {
  }

  lemma WaitPidStrikes(s: State, q: Pid, p: Pid, place: Place)
    requires Waits(s, p, place) && p != s.current
    ensures Strikes(s, WaitPid(q), p, place)
  {
    hide Enlist;
    hide Asleep;
    EnlistStrikes(s, q, p, place);
    SleepStrikes(Enlist(s, q), p, place);
  }

  lemma SemWaitStrikes(s: State, key: nat, p: Pid, place: Place)
    requires Waits(s, p, place) && p != s.current && CurrentSet(s).Some?
    ensures Strikes(s, SemWait(key), p, place)
  {
    hide Sems.Apply;
    hide Asleep;
    OpStrikes(s, Sems.Op.Wait(key, s.current), p, place);
    SleepStrikes(Waited(s, key).0, p, place);
    WaitNeverWakes(CurrentSet(s).value, key, s.current);
  }

  lemma WaitNeverWakes(sems: Sems.Semaphores, key: nat, pid: Pid)
    ensures !Sems.Apply(sems, Sems.Op.Wait(key, pid)).1.WakeUp?
  {
  }

  lemma SemSignalStrikes(s: State, key: nat, p: Pid, place: Place)
    requires Waits(s, p, place) && CurrentSet(s).Some? && Answer(s, SemSignal(key), p).None?
    ensures Strikes(s, SemSignal(key), p, place)
  {
    hide Sems.Apply;
    OpStrikes(s, Sems.Op.Signal(key), p, place);
  }

  /** A step that does not answer the process does the same with and without it. */
  lemma StepStrikes(s: State, step: Step, p: Pid, place: Place)
    requires Inv(Struck(s, p, place)) && Admissible(Struck(s, p, place), step)
    requires p != s.current && Answer(s, step, p).None?
    ensures Struck(Next(s, step), p, place) == Next(Struck(s, p, place), step)
  {
    var t := Struck(s, p, place);
    CurrentIsFree(t);
    NewPidIsFree(t);
    if !Waits(s, p, place) {
      if Waits(Next(s, step), p, place) {
        NobodyElseEnlists(s, step, p, place);
      }
    } else {
      NewSetIsFree(t);
      PreparedStrikes(s, step, p, place);
      NextIsPrepared(s, step);
      NextIsPrepared(t, step);
      SwitchStrikes(Prepared(s, step), p, place);
    }
  }

  lemma NewSetIsFree(s: State)
    requires Inv(s)
    ensures s.nextSet !in s.sets
  {
  }

  lemma PreparedStrikes(s: State, step: Step, p: Pid, place: Place)
    requires Waits(s, p, place) && p != s.current && Answer(s, step, p).None?
    requires CurrentSet(Struck(s, p, place)).Some? && Struck(s, p, place).nextSet !in Struck(s, p, place).sets
    requires Alive(s, KERNEL_PID)
    ensures Strikes(s, step, p, place)
  {
    match step
    case NewSem(_, _) => TableStrikes(s, step, p, place);
    case RemoveSem(_) => TableStrikes(s, step, p, place);
    case Spawn(entry) => SpawnStrikes(s, entry, p, place);
    case SemWait(key) => SemWaitStrikes(s, key, p, place);
    case SemSignal(key) => SemSignalStrikes(s, key, p, place);
    case WaitPid(q) => WaitPidStrikes(s, q, p, place);
    case Exit(ret) => KillStrikes(s, s.current, ret, p, place);
    case SysKill(pid) => if pid != KERNEL_PID { KillStrikes(s, pid, KILLED, p, place); }
    case _ => PlainStrikes(s, step, p, place);
  }

  ghost predicate Unanswered(s: State, steps: seq<Step>, p: Pid)
    decreases |steps|
  {
    steps == [] || (Answer(s, steps[0], p).None? && Unanswered(Next(s, steps[0]), steps[1..], p))
  }

  ghost predicate DeadIn(s: State, p: Pid) {
    p in s.processes && s.processes[p].status.Dead? && s.processes[p].data.None?
  }

  /** Until it is answered, a dead process on a list changes nothing: the run is that of
    * the sound state without it. */
  lemma {:induction false} HarmlessUntilAnswered(s: State, steps: seq<Step>, p: Pid, place: Place)
    requires Inv(Struck(s, p, place)) && Allowed(Struck(s, p, place), steps) && DeadIn(s, p) && Unanswered(s, steps, p)
    ensures Struck(Run(s, steps), p, place) == Run(Struck(s, p, place), steps)
    ensures Inv(Struck(Run(s, steps), p, place)) && DeadIn(Run(s, steps), p)
    decreases |steps|
  {
    if steps != [] {
      var t := Struck(s, p, place);
      CurrentIsLive(t);
      StepStrikes(s, steps[0], p, place);
      StepKeepsInv(t, steps[0]);
      DeadStaysDead(t, steps[0], p);
      DeadHasNoData(Next(t, steps[0]), p);
      HarmlessUntilAnswered(Next(s, steps[0]), steps[1..], p, place);
    }
  }

  lemma DeadHasNoData(s: State, p: Pid)
    requires Inv(s) && p in s.processes && s.processes[p].status.Dead?
    ensures DeadIn(s, p)
  {
  }

  // ---- The answer -------------------------------------------------------------------------------

  /** A process without an address space is ready at index `i` of the queue. */
  ghost predicate Revived(s: State, p: Pid, i: nat) {
    && p in s.processes && s.processes[p].status.Ready? && s.processes[p].data.None?
    && i < |s.readyQueue| && s.readyQueue[i] == p
    && s.current in s.processes && s.current != p
  }

  /** A switch that reaches it panics; any other moves it forward. */
  lemma {:induction false} SwitchReaches(s: State, p: Pid, i: nat) returns (j: nat)
    requires Revived(s, p, i)
    ensures SwitchNext(s).panicked || (Revived(SwitchNext(s), p, j) && j < i)
    ensures (forall k | 0 <= k < i :: s.readyQueue[k] in s.processes && !s.processes[s.readyQueue[k]].status.Ready?)
        ==> SwitchNext(s).panicked
    decreases |s.readyQueue|
  {
    var next, t := s.readyQueue[0], s.(readyQueue := s.readyQueue[1..]);
    j := if i > 0 then i - 1 else 0;
    if next in s.processes && next != p {
      assert t.readyQueue[i - 1] == p;
      if !s.processes[next].status.Ready? {
        j := SwitchReaches(t, p, i - 1);
        assert forall k | 0 <= k < i - 1 :: t.readyQueue[k] == s.readyQueue[k + 1];
      }
    }
  }

  ghost function Ticks(n: nat): seq<Step> { seq(n, _ => Tick) }

  /** Clock ticks alone bring the kernel down. */
  ghost predicate StopsByTicks(s: State) { exists n: nat :: Run(s, Ticks(n)).panicked }

  /** Within `i + 1` ticks. */
  lemma {:induction false} TicksReach(s: State, p: Pid, i: nat) returns (n: nat)
    requires Revived(s, p, i)
    ensures n <= i + 1 && Run(s, Ticks(n)).panicked
    decreases i
  {
    var u := PushReady(SaveCurrent(s), s.current);
    assert Revived(u, p, i);
    var j := SwitchReaches(u, p, i);
    if SwitchNext(u).panicked {
      n := 1;
      assert Ticks(1)[1..] == [];
      assert Run(s, Ticks(1)) == Next(s, Tick);
    } else {
      var m := TicksReach(SwitchNext(u), p, j);
      n := m + 1;
      assert Ticks(n)[1..] == Ticks(m);
    }
  }

  /** The step that answers the list makes the dead process ready and queues it. */
  lemma AnswerRevives(s: State, step: Step, p: Pid, place: Place) returns (i: nat)
    requires Inv(Struck(s, p, place)) && Admissible(Struck(s, p, place), step) && DeadIn(s, p)
    requires Answer(s, step, p).Some?
    ensures Revived(Prepared(s, step), p, i)
  {
    var t := Struck(s, p, place);
    CurrentIsLive(t);
    if step.SemSignal? {
      i := |s.readyQueue|;
      SignalRevives(s, step.key, p);
    } else {
      var pid := if step.Exit? then s.current else step.pid;
      WaitersExist(s, pid, p, place);
      hide Inv;
      hide Kill;
      i := DeathRevives(s, pid, if step.Exit? then step.ret else KILLED, p);
    }
  }

  lemma SignalRevives(s: State, key: nat, p: Pid)
    requires DeadIn(s, p) && s.current in s.processes && p != s.current && Answer(s, SemSignal(key), p).Some?
    ensures Revived(Prepared(s, SemSignal(key)), p, |s.readyQueue|)
  {
  }

  lemma WaitersExist(s: State, pid: Pid, p: Pid, place: Place)
    requires Inv(Struck(s, p, place)) && p in s.processes
    ensures forall w | w in WaitersOf(s, pid) :: w in s.processes
  {
    forall w | w in WaitersOf(s, pid) ensures w in s.processes {
      if w != p {
        StruckWaits(s, p, place, w, ExitOf(pid));
      }
    }
  }

  lemma DeathRevives(s: State, pid: Pid, ret: int, p: Pid) returns (i: nat)
    requires pid in s.processes && p in WaitersOf(s, pid) && (forall w | w in WaitersOf(s, pid) :: w in s.processes)
    requires s.current in s.processes && p != s.current && (p == pid || s.processes[p].data.None?)
    ensures Revived(Kill(s, pid, ret), p, i)
  {
    var pids := Ascending(s.waitQueue[pid]);
    WakeAllEffect(Buried(s, pid, ret), pids, ret);
    var k :| 0 <= k < |pids| && pids[k] == p;
    i := |s.readyQueue| + k;
  }

  lemma AnswerStops(s: State, step: Step, p: Pid, place: Place)
    requires Inv(Struck(s, p, place)) && Admissible(Struck(s, p, place), step) && DeadIn(s, p)
    requires Answer(s, step, p).Some?
    ensures StopsByTicks(Next(s, step))
  {
    var i := AnswerRevives(s, step, p, place);
    NextIsPrepared(s, step);
    if Switches(s, step) {
      i := SwitchReaches(Prepared(s, step), p, i);
    }
    if Next(s, step).panicked {
      assert Run(Next(s, step), Ticks(0)) == Next(s, step);
    } else {
      var n := TicksReach(Next(s, step), p, i);
    }
  }

  lemma {:induction false} TicksAreAllowed(s: State, n: nat)
    requires Inv(s)
    ensures Allowed(s, Ticks(n)) && Inv(Run(s, Ticks(n)))
    decreases n
  {
    if n > 0 {
      assert Ticks(n)[1..] == Ticks(n - 1);
      StepKeepsInv(s, Tick);
      TicksAreAllowed(Next(s, Tick), n - 1);
    }
  }

  lemma {:induction false} TicksDoNotAnswer(s: State, n: nat, p: Pid)
    ensures Unanswered(s, Ticks(n), p)
    decreases n
  {
    if n > 0 {
      assert Ticks(n)[1..] == Ticks(n - 1);
      TicksDoNotAnswer(Next(s, Tick), n - 1, p);
    }
  }

  lemma UnansweredDoesNotStop(s: State, p: Pid, place: Place)
    requires Inv(Struck(s, p, place)) && DeadIn(s, p)
    ensures !StopsByTicks(s)
  {
    forall n: nat ensures !Run(s, Ticks(n)).panicked {
      TicksAreAllowed(Struck(s, p, place), n);
      TicksDoNotAnswer(s, n, p);
      HarmlessUntilAnswered(s, Ticks(n), p, place);
    }
  }

  /** The kill itself: it is what it would be without the process on its list. */
  lemma KilledWaiterIsStruck(s: State, p: Pid, place: Place)
    requires Inv(s) && Waits(s, p, place) && place != ExitOf(p) && p != KERNEL_PID
    ensures p != s.current && DeadIn(Next(s, SysKill(p)), p) && Inv(Struck(Next(s, SysKill(p)), p, place))
  {
    CurrentIsFree(s);
    StruckKeepsInv(s, p, place);
    StruckLists(s, s, p, place);
    assert p in s.processes;
    hide Inv;
    hide Kill;
    hide Struck;
    hide Waits;
    var t := Struck(s, p, place);
    KillKeepsInv(t, p, KILLED);
    KillStrikes(s, p, KILLED, p, place);
    KillEffect(t, p, KILLED);
    StruckLists(Kill(s, p, KILLED), Kill(s, p, KILLED), p, place);
  }

  /** A process is killed while it waits at `place`, and others go on for any time without
    * answering it. The kernel has not panicked then, and the next step lets mere clock
    * ticks bring it down exactly when it answers that list. */
  lemma KilledWaiterStopsKernelIffAnswered(s: State, p: Pid, place: Place, steps: seq<Step>, step: Step)
    requires Inv(s) && Waits(s, p, place) && place != ExitOf(p) && p != KERNEL_PID
    requires var u := Next(s, SysKill(p));
      && Allowed(Struck(u, p, place), steps) && Unanswered(u, steps, p)
      && Admissible(Struck(Run(u, steps), p, place), step)
    ensures var t := Run(Next(s, SysKill(p)), steps);
      !t.panicked && (StopsByTicks(Next(t, step)) <==> Answer(t, step, p).Some?)
  {
    KilledWaiterIsStruck(s, p, place);
    var u := Next(s, SysKill(p));
    HarmlessUntilAnswered(u, steps, p, place);
    var t := Run(u, steps);
    InvIsQuiet(Struck(t, p, place));
    CurrentIsLive(Struck(t, p, place));
    if Answer(t, step, p).Some? {
      AnswerStops(t, step, p, place);
    } else {
      HarmlessUntilAnswered(t, [step], p, place);
      assert Run(t, [step]) == Next(t, step);
      UnansweredDoesNotStop(Next(t, step), p, place);
    }
  }

  /** A process that waits for itself is answered by its own death. */
  lemma KilledSelfWaiterStopsKernel(s: State, p: Pid)
    requires Inv(s) && Waits(s, p, ExitOf(p)) && p != KERNEL_PID
    ensures StopsByTicks(Next(s, SysKill(p)))
  {
    CurrentIsFree(s);
    CurrentIsLive(s);
    forall w | w in WaitersOf(s, p) ensures w in s.processes {
      assert Waits(s, w, ExitOf(p));
    }
    var i := DeathRevives(s, p, KILLED, p);
    var n := TicksReach(Next(s, SysKill(p)), p, i);
  }

  // ---- A run from boot that stops the kernel --------------------------------------------------------

  lemma RunTwo(s: State, a: Step, b: Step, rest: seq<Step>)
    ensures Run(s, [a, b] + rest) == Run(Next(Next(s, a), b), rest)
    ensures Allowed(s, [a, b] + rest)
       <==> Admissible(s, a) && Admissible(Next(s, a), b) && Allowed(Next(Next(s, a), b), rest)
  {
    hide Next;
    hide Admissible;
    assert ([a, b] + rest)[1..] == [b] + rest && ([b] + rest)[1..] == rest;
  }

  function Proc(status: Status, cpu: Context, ticks: nat, children: nat, set_: nat): Process {
    Process(status, cpu, None, ticks, children, Some(set_))
  }

  /** The kernel has spawned pid 2 and has been interrupted. */
  function Spawned(cpu: Context): State {
    State(map[1 := Proc(Ready, cpu.(rax := 2), 1, 0, 0), 2 := Proc(Running, cpu, 0, 0, 1)],
          [1], map[], 2, cpu, 3, map[0 := map[], 1 := map[]], 2, false)
  }

  /** Pid 2 has created semaphore 7 and forked pid 3; the kernel runs. */
  function HasForked(cpu: Context): State {
    State(map[1 := Proc(Running, cpu.(rax := 2), 1, 0, 0),
              2 := Proc(Ready, cpu.(rax := 3), 1, 1, 1),
              3 := Proc(Ready, cpu.(rax := 0, rsp := AsUsize(cpu.rsp)), 0, 0, 1)],
          [3, 2], map[], 1, cpu.(rax := 2), 4, map[0 := map[], 1 := map[7 := Sems.Semaphore(0, [])]], 2, false)
  }

  /** Pid 3 is blocked on semaphore 7, and its parent runs. */
  function ChildBlocked(cpu: Context): State {
    State(map[1 := Proc(Ready, cpu.(rax := 2), 2, 0, 0),
              2 := Proc(Running, cpu.(rax := 3), 1, 1, 1),
              3 := Proc(Blocked, cpu.(rax := 0, rsp := AsUsize(cpu.rsp)), 1, 0, 1)],
          [1], map[], 2, cpu.(rax := 3), 4, map[0 := map[], 1 := map[7 := Sems.Semaphore(0, [3])]], 2, false)
  }

  lemma SwitchHead(s: State, next: Pid, rest: seq<Pid>)
    requires s.readyQueue == [next] + rest && next in s.processes && next != s.current
    requires s.processes[next].status.Ready? && s.processes[next].data.Some?
    ensures SwitchNext(s) == s.(processes := s.processes[next := s.processes[next].(status := Running)],
                                cpu := s.processes[next].context, current := next, readyQueue := rest)
  {
    assert s.readyQueue[1..] == rest;
  }

  lemma BootSpawns(cpu: Context)
    ensures Admissible(Boot(cpu), Spawn(cpu)) && Admissible(Next(Boot(cpu), Spawn(cpu)), Tick)
    ensures Next(Next(Boot(cpu), Spawn(cpu)), Tick) == Spawned(cpu)
  {
    var s := Next(Boot(cpu), Spawn(cpu));
    assert s.readyQueue == [2];
    var u := PushReady(SaveCurrent(s), 1);
    SwitchHead(u, 2, [1]);
    assert SwitchNext(u).processes == Spawned(cpu).processes;
  }

  lemma SpawnedForks(cpu: Context)
    ensures Admissible(Spawned(cpu), NewSem(7, 0)) && Admissible(Next(Spawned(cpu), NewSem(7, 0)), Fork(0))
    ensures Next(Next(Spawned(cpu), NewSem(7, 0)), Fork(0)) == HasForked(cpu)
  {
    var s := HasSemaphore(cpu);
    CreatesSemaphore(cpu);
    var u := Forked(s, 0);
    ForksHere(cpu);
    hide Forked;
    SwitchHead(u, 1, [3, 2]);
  }

  function HasSemaphore(cpu: Context): State {
    Spawned(cpu).(cpu := cpu.(rax := 0), sets := map[0 := map[], 1 := map[7 := Sems.Semaphore(0, [])]])
  }

  lemma CreatesSemaphore(cpu: Context)
    ensures Next(Spawned(cpu), NewSem(7, 0)) == HasSemaphore(cpu)
  {
  }

  lemma ForksHere(cpu: Context)
    ensures Forked(HasSemaphore(cpu), 0) ==
        HasForked(cpu).(processes := HasForked(cpu).processes[1 := Proc(Ready, cpu.(rax := 2), 1, 0, 0)],
                        readyQueue := [1, 3, 2], current := 2, cpu := cpu.(rax := 0))
  {
    var u := Forked(HasSemaphore(cpu), 0);
    assert u.readyQueue == [1, 3, 2];
    assert u.processes == HasForked(cpu).processes[1 := Proc(Ready, cpu.(rax := 2), 1, 0, 0)];
  }

  function ChildRuns(cpu: Context): State {
    State(map[1 := Proc(Ready, cpu.(rax := 2), 2, 0, 0),
              2 := Proc(Ready, cpu.(rax := 3), 1, 1, 1),
              3 := Proc(Running, cpu.(rax := 0, rsp := AsUsize(cpu.rsp)), 0, 0, 1)],
          [2, 1], map[], 3, cpu.(rax := 0, rsp := AsUsize(cpu.rsp)), 4,
          map[0 := map[], 1 := map[7 := Sems.Semaphore(0, [])]], 2, false)
  }

  lemma ForkedTicks(cpu: Context)
    ensures Next(HasForked(cpu), Tick) == ChildRuns(cpu)
  {
    var u := PushReady(SaveCurrent(HasForked(cpu)), 1);
    assert u.readyQueue == [3] + [2, 1];
    SwitchHead(u, 3, [2, 1]);
  }

  lemma ChildSleeps(cpu: Context)
    ensures Waited(ChildRuns(cpu), 7).1.Block?
    ensures Waited(ChildRuns(cpu), 7).0 == ChildRuns(cpu).(sets := ChildBlocked(cpu).sets)
  {
    var sems: Sems.Semaphores := map[7 := Sems.Semaphore(0, [])];
    assert Sems.Apply(sems, Sems.Op.Wait(7, 3)).0 == map[7 := Sems.Semaphore(0, [3])] by {
      assert [] + [3] == [3];
    }
    assert Waited(ChildRuns(cpu), 7).0.sets == ChildBlocked(cpu).sets;
  }

  lemma ForkedBlocks(cpu: Context)
    ensures Admissible(HasForked(cpu), Tick) && Admissible(Next(HasForked(cpu), Tick), SemWait(7))
    ensures Next(Next(HasForked(cpu), Tick), SemWait(7)) == ChildBlocked(cpu)
  {
    ForkedTicks(cpu);
    ChildSleeps(cpu);
    NextIsPrepared(ChildRuns(cpu), SemWait(7));
    hide Waited;
    hide Next;
    var u := Asleep(Waited(ChildRuns(cpu), 7).0);
    ChildIsAsleep(cpu);
    hide Asleep;
    SwitchHead(u, 2, [1]);
  }

  lemma ChildIsAsleep(cpu: Context)
    ensures Asleep(ChildRuns(cpu).(sets := ChildBlocked(cpu).sets)) ==
        ChildBlocked(cpu).(processes := ChildBlocked(cpu).processes[2 := Proc(Ready, cpu.(rax := 3), 1, 1, 1)],
                           readyQueue := [2, 1], current := 3, cpu := ChildRuns(cpu).cpu)
  {
    var u := Asleep(ChildRuns(cpu).(sets := ChildBlocked(cpu).sets));
    assert u.processes == ChildBlocked(cpu).processes[2 := Proc(Ready, cpu.(rax := 3), 1, 1, 1)];
  }

  /** The parent kills its blocked child and signals; pid 3 is queued behind the kernel. */
  lemma BlockedComesBack(cpu: Context)
    ensures var s := Next(Next(ChildBlocked(cpu), SysKill(3)), SemSignal(7));
      && s.readyQueue == [1, 3] && s.current == 2 && s.processes.Keys == {1, 2, 3}
      && s.processes[1].status.Ready? && s.processes[1].data.Some?
      && s.processes[3].status.Ready? && s.processes[3].data.None?
  {
    var s := Next(ChildBlocked(cpu), SysKill(3));
    assert s.readyQueue == [1] && s.sets == ChildBlocked(cpu).sets;
    assert CurrentSet(s).value[7].waitQueue == [3];
  }

  /** Two ticks later the kernel has panicked. */
  lemma ComesBackStops(s: State)
    requires s.readyQueue == [1, 3] && s.current == 2 && s.processes.Keys == {1, 2, 3}
    requires s.processes[1].status.Ready? && s.processes[1].data.Some?
    requires s.processes[3].status.Ready? && s.processes[3].data.None?
    ensures Next(Next(s, Tick), Tick).panicked
  {
    var t := Next(s, Tick);
    assert PushReady(SaveCurrent(s), 2).readyQueue == [1, 3, 2];
    assert t.readyQueue == [3, 2] && t.current == 1;
    assert PushReady(SaveCurrent(t), 1).readyQueue == [3, 2, 1];
  }

  /** A kill and a signal, from boot. All steps but the kill are admissible. */
  lemma KillThenSignalStopsTheKernel(cpu: Context)
    ensures var before := [Spawn(cpu), Tick, NewSem(7, 0), Fork(0), Tick, SemWait(7)];
      Allowed(Boot(cpu), before) && Run(Boot(cpu), before) == ChildBlocked(cpu)
    ensures Waits(ChildBlocked(cpu), 3, SemaphoreOf(1, 7))
    ensures Run(ChildBlocked(cpu), [SysKill(3), SemSignal(7), Tick, Tick]).panicked
  {
    hide Run;
    hide Allowed;
    hide Next;
    BootSpawns(cpu);
    SpawnedForks(cpu);
    ForkedBlocks(cpu);
    BlockedComesBack(cpu);
    hide Admissible;
    var s, kill := ChildBlocked(cpu), [SysKill(3), SemSignal(7), Tick, Tick];
    assert [Spawn(cpu), Tick, NewSem(7, 0), Fork(0), Tick, SemWait(7)]
        == [Spawn(cpu), Tick] + ([NewSem(7, 0), Fork(0)] + ([Tick, SemWait(7)] + []));
    RunTwo(HasForked(cpu), Tick, SemWait(7), []);
    RunTwo(Spawned(cpu), NewSem(7, 0), Fork(0), [Tick, SemWait(7)] + []);
    RunTwo(Boot(cpu), Spawn(cpu), Tick, [NewSem(7, 0), Fork(0)] + ([Tick, SemWait(7)] + []));
    RunNothing(s);
    assert kill == [SysKill(3), SemSignal(7)] + ([Tick, Tick] + []);
    var t := Next(Next(s, SysKill(3)), SemSignal(7));
    RunTwo(s, SysKill(3), SemSignal(7), [Tick, Tick] + []);
    RunTwo(t, Tick, Tick, []);
    ComesBackStops(t);
    RunNothing(Next(Next(t, Tick), Tick));
  }

  lemma RunNothing(s: State)
    ensures Run(s, []) == s && Allowed(s, [])
  {
  }
}
