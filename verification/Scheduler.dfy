/** The process manager as a state machine. Every system call and every clock tick
  * runs with interrupts off, so each is one step from state to state. */
module Scheduler {
  import opened Common
  import Sems = Semaphores

  type Pid = Sems.Pid

  datatype Status = Running | Ready | Blocked | Dead

  /** The saved registers: `rax`, the stack pointer and all the others. */
  datatype Context = Context(rax: nat, rsp: nat, others: seq<nat>)

  /** `data` names the semaphore set shared with relatives. The process data and the
    * address space are dropped together when the process is killed, so `data` also
    * tells whether there still is an address space. */
  datatype Process = Process(
    status: Status, context: Context, exitCode: Option<int>,
    ticks: nat, children: nat, data: Option<nat>)

  /** `cpu` is the interrupted context that the handler returns to. `panicked` says
    * that the kernel has stopped; the rest of the state is then irrelevant. */
  datatype State = State(
    processes: map<Pid, Process>, readyQueue: seq<Pid>, waitQueue: map<Pid, set<Pid>>,
    current: Pid, cpu: Context, nextPid: Pid,
    sets: map<nat, Sems.Semaphores>, nextSet: nat, panicked: bool)

  const KERNEL_PID: Pid := 1
  const PID_MODULUS: nat := 0x1_0000
  const KILLED: int := 0xdead

  /** `isize as usize`, and wrapping 64-bit addition. */
  function AsUsize(x: int): nat { x % WORD_MODULUS }

  // ---- Operations of the process manager -----------------------------------------

  function Panic(s: State): State { s.(panicked := true) }

  function PushReady(s: State, pid: Pid): State {
    s.(readyQueue := s.readyQueue + [pid])
  }

  function SetProcess(s: State, pid: Pid, p: Process): State {
    s.(processes := s.processes[pid := p])
  }

  function SetRax(s: State, value: nat): State { s.(cpu := s.cpu.(rax := value)) }

  function SaveCurrent(s: State): State {
    if s.current !in s.processes then Panic(s)
    else
      var p := s.processes[s.current];
      SetProcess(s, s.current, p.(ticks := p.ticks + 1, context := s.cpu, status := Ready))
  }

  function Block(s: State, pid: Pid): State {
    if pid !in s.processes then s else SetProcess(s, pid, s.processes[pid].(status := Blocked))
  }

  /** Load the context of `next`, which must still have an address space. */
  function Restore(s: State, next: Pid): State
    requires next in s.processes
  {
    var p := s.processes[next];
    if p.data.None? then Panic(s)
    else SetProcess(s, next, p.(status := Running)).(cpu := p.context, current := next)
  }

  /** Pop the queue until a ready process comes up. The process that is already
    * current is not restored. */
  function SwitchNext(s: State): State
    decreases |s.readyQueue|
  {
    if s.readyQueue == [] then s
    else
      var next, t := s.readyQueue[0], s.(readyQueue := s.readyQueue[1..]);
      if next !in s.processes then Panic(t)
      else if s.processes[next].status != Ready then SwitchNext(t)
      else if next != s.current then Restore(t, next)
      else t
  }

  function WakeUp(s: State, pid: Pid, ret: int): State {
    if pid !in s.processes then s
    else
      var p := s.processes[pid];
      PushReady(SetProcess(s, pid, p.(context := p.context.(rax := AsUsize(ret)), status := Ready)), pid)
  }

  function WakeAll(s: State, pids: seq<Pid>, ret: int): State
    decreases pids
  {
    if pids == [] then s else WakeAll(WakeUp(s, pids[0], ret), pids[1..], ret)
  }

  ghost function Least(s: set<Pid>): (m: Pid)
    requires s != {}
    ensures m in s && forall x | x in s :: m <= x
    decreases |s|
  {
    var y :| y in s;
    if s == {y} then y
    else
      assert s - {y} != {} && forall x | x in s :: x == y || x in s - {y};
      var m := Least(s - {y});
      if y < m then y else m
  }

  lemma InFront(s: set<Pid>, m: Pid, rest: seq<Pid>)
    requires m in s && (forall x | x in s :: m <= x) && (forall x :: x in rest <==> x in s - {m})
    requires forall i, j | 0 <= i < j < |rest| :: rest[i] < rest[j]
    ensures forall x :: x in [m] + rest <==> x in s
    ensures forall i, j | 0 <= i < j < |[m] + rest| :: ([m] + rest)[i] < ([m] + rest)[j]
  {
    assert forall k | 0 <= k < |rest| :: rest[k] in s - {m};
  }

  /** The elements of an ordered set, smallest first. */
  ghost function Ascending(s: set<Pid>): (pids: seq<Pid>)
    ensures forall x :: x in pids <==> x in s
    ensures forall i, j | 0 <= i < j < |pids| :: pids[i] < pids[j]
    decreases |s|
  {
    if s == {} then []
    else
      var m := Least(s);
      var rest := Ascending(s - {m});
      InFront(s, m, rest);
      [m] + rest
  }

  lemma AscendingFrom(s: set<Pid>, m: Pid)
    requires m in s && forall x | x in s :: m <= x
    ensures Ascending(s) == [m] + Ascending(s - {m})
  {
    assert Least(s) == m;
  }

  function Died(p: Process, ret: int): Process {
    p.(status := Dead, exitCode := Some(ret), data := None)
  }

  ghost function Kill(s: State, pid: Pid, ret: int): State {
    if pid !in s.processes then s
    else
      var t := SetProcess(s, pid, Died(s.processes[pid], ret));
      if pid !in s.waitQueue then t
      else WakeAll(t.(waitQueue := t.waitQueue - {pid}), Ascending(s.waitQueue[pid]), ret)
  }

  predicate Alive(s: State, pid: Pid) {
    pid in s.processes && s.processes[pid].data.Some?
  }

  /** The semaphore set that the current process shares with its relatives. */
  function CurrentSet(s: State): Option<Sems.Semaphores> {
    if Alive(s, s.current) && s.processes[s.current].data.value in s.sets
    then Some(s.sets[s.processes[s.current].data.value]) else None
  }

  function SetCurrentSet(s: State, sems: Sems.Semaphores): State
    requires Alive(s, s.current)
  {
    s.(sets := s.sets[s.processes[s.current].data.value := sems])
  }

  // ---- The steps -----------------------------------------------------------------

  datatype Step =
    | Tick                                // the clock interrupt
    | Compute(cpu: Context)               // the current process runs on
    | Fork(offset: nat)                   // distance to the child's stack, modulo 2^64
    | Spawn(entry: Context)
    | Exit(ret: int)
    | WaitPid(pid: Pid)
    | SysKill(pid: Pid)
    | NewSem(key: nat, value: nat)
    | RemoveSem(key: nat)
    | SemWait(key: nat)
    | SemSignal(key: nat)

  function Switch(s: State): State {
    SwitchNext(PushReady(SaveCurrent(s), s.current))
  }

  function ChildOf(p: Process, offset: nat): Process {
    Process(Ready, p.context.(rax := 0, rsp := AsUsize(p.context.rsp + offset)), None, 0, 0, p.data)
  }

  /** `ProcessManager::fork` on the saved state: the child is added and queued, the
    * parent is ready and will receive the child's pid. */
  function Offspring(s: State, offset: nat): State
    requires s.current in s.processes
  {
    var p, child := s.processes[s.current], s.nextPid;
    var parent := p.(status := Ready, children := p.children + 1, context := p.context.(rax := child));
    var t := SetProcess(s, s.current, parent).(nextPid := (child + 1) % PID_MODULUS);
    SetProcess(PushReady(t, child), child, ChildOf(p, offset))
  }

  /** Parent and child are both ready afterwards, the child in front. */
  function Forked(s: State, offset: nat): State
    requires s.current in s.processes
  {
    PushReady(Offspring(SaveCurrent(s), offset), s.current)
  }

  function ForkStep(s: State, offset: nat): State {
    if !Alive(s, s.current) then Panic(s) else SwitchNext(Forked(s, offset))
  }

  function SpawnStep(s: State, entry: Context): State {
    if !Alive(s, KERNEL_PID) then Panic(s)
    else
      var pid := s.nextPid;
      var t := SetProcess(s, pid, Process(Ready, entry, None, 0, 0, Some(s.nextSet)));
      var u := t.(sets := t.sets[s.nextSet := map[]], nextSet := s.nextSet + 1, nextPid := (pid + 1) % PID_MODULUS);
      SetRax(PushReady(u, pid), pid)
  }

  ghost function ExitStep(s: State, ret: int): State { SwitchNext(Kill(s, s.current, ret)) }

  ghost function KillStep(s: State, pid: Pid): State {
    if pid == KERNEL_PID then s
    else if pid == s.current then ExitStep(s, KILLED)
    else Kill(s, pid, KILLED)
  }

  /** Save the current process, block it and switch. */
  function Sleep(s: State): State { SwitchNext(Block(SaveCurrent(s), s.current)) }

  function ExitCode(s: State, pid: Pid): Option<int> {
    if pid in s.processes then s.processes[pid].exitCode else None
  }

  function Enlist(s: State, pid: Pid): State {
    var waiters := if pid in s.waitQueue then s.waitQueue[pid] else {};
    s.(waitQueue := s.waitQueue[pid := waiters + {s.current}])
  }

  function WaitPidStep(s: State, pid: Pid): State {
    match ExitCode(s, pid)
    case Some(ret) => SetRax(s, AsUsize(ret))
    case None => Sleep(Enlist(s, pid))
  }

  function SemWaitStep(s: State, key: nat): State {
    match CurrentSet(s)
    case None => Panic(s)
    case Some(sems) =>
      var (sems', r) := Sems.Apply(sems, Sems.Wait(key, s.current));
      var t := SetCurrentSet(s, sems');
      if r.Ok? then SetRax(t, 0) else if r.NotExist? then SetRax(t, 1) else Sleep(t)
  }

  function SemSignalStep(s: State, key: nat): State {
    match CurrentSet(s)
    case None => Panic(s)
    case Some(sems) =>
      var (sems', r) := Sems.Apply(sems, Sems.Signal(key));
      var t := SetCurrentSet(s, sems');
      if r.Ok? then SetRax(t, 0) else if r.WakeUp? then WakeUp(t, r.pid, 0) else SetRax(t, 1)
  }

  function NewSemStep(s: State, key: nat, value: nat): State {
    match CurrentSet(s)
    case None => Panic(s)
    case Some(sems) =>
      SetRax(SetCurrentSet(s, Sems.Apply(sems, Sems.Insert(key, value)).0), if key in sems then 1 else 0)
  }

  function RemoveSemStep(s: State, key: nat): State {
    match CurrentSet(s)
    case None => Panic(s)
    case Some(sems) =>
      SetRax(SetCurrentSet(s, Sems.Apply(sems, Sems.Remove(key)).0), if key in sems then 0 else 1)
  }

  ghost function Next(s: State, step: Step): State {
    match step
    case Tick => Switch(s)
    case Compute(cpu) => s.(cpu := cpu)
    case Fork(offset) => ForkStep(s, offset)
    case Spawn(entry) => SpawnStep(s, entry)
    case Exit(ret) => ExitStep(s, ret)
    case WaitPid(pid) => WaitPidStep(s, pid)
    case SysKill(pid) => KillStep(s, pid)
    case NewSem(key, value) => NewSemStep(s, key, value)
    case RemoveSem(key) => RemoveSemStep(s, key)
    case SemWait(key) => SemWaitStep(s, key)
    case SemSignal(key) => SemSignalStep(s, key)
  }

  /** The state in which the process manager is created: the kernel runs alone. */
  function Boot(cpu: Context): State {
    State(map[KERNEL_PID := Process(Running, cpu, None, 0, 0, Some(0))], [], map[],
          KERNEL_PID, cpu, 2, map[0 := map[]], 1, false)
  }
}
