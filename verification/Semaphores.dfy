/** The kernel's counting semaphores: `Semaphore` and the keyed `SemaphoreSet`.
  *
  * A semaphore hands its token directly to the longest blocked process, so a
  * signal never raises `count` while somebody waits. The lemmas show that this
  * refines an integer and that blocked processes leave in arrival order. */
module Semaphores {
  import opened Common

  type Pid = nat

  datatype SemaphoreResult = Ok | NotExist | Block(pid: Pid) | WakeUp(pid: Pid)

  /** `count` is a `usize` and wraps. */
  datatype Semaphore = Semaphore(count: nat, waitQueue: seq<Pid>) {

    function Wait(pid: Pid): (r: (Semaphore, SemaphoreResult)) {
      if count == 0 then (Semaphore(count, waitQueue + [pid]), Block(pid))
      else (Semaphore(count - 1, waitQueue), Ok)
    }

    function Signal(): (r: (Semaphore, SemaphoreResult)) {
      if waitQueue != [] then (Semaphore(count, waitQueue[1..]), WakeUp(waitQueue[0]))
      else (Semaphore((count + 1) % WORD_MODULUS, waitQueue), Ok)
    }

    /** The integer that the semaphore stands for: negative while processes wait. */
    ghost function Value(): int { count - |waitQueue| }

    /** Tokens and waiters never exist at the same time. */
    ghost predicate Settled() { count == 0 || waitQueue == [] }
  }

  type Semaphores = map<nat, Semaphore>

  datatype Op =
    | Insert(key: nat, value: nat)
    | Remove(key: nat)
    | Wait(key: nat, pid: Pid)
    | Signal(key: nat)

  /** One operation on the set, with the answer the caller sees. `Insert` replaces
    * an existing semaphore, queue and all; `insert` and `remove` answer a bool. */
  function Apply(sems: Semaphores, op: Op): (r: (Semaphores, SemaphoreResult)) {
    match op
    case Insert(key, value) =>
      (sems[key := Semaphore(value, [])], if key in sems then NotExist else Ok)
    case Remove(key) =>
      (sems - {key}, if key in sems then Ok else NotExist)
    case Wait(key, pid) =>
      if key !in sems then (sems, NotExist)
      else var (sem, r) := sems[key].Wait(pid); (sems[key := sem], r)
    case Signal(key) =>
      if key !in sems then (sems, NotExist)
      else var (sem, r) := sems[key].Signal(); (sems[key := sem], r)
  }

  /** The semaphore set as the kernel keeps it: one map, updated in place. */
  class SemaphoreSet {
    var sems: Semaphores

    constructor ()
      ensures sems == map[]
    {
      sems := map[];
    }

    method Insert(key: nat, value: nat) returns (isNew: bool)
      modifies this
      ensures sems == Apply(old(sems), Op.Insert(key, value)).0
      ensures isNew <==> key !in old(sems)
      ensures key in sems && sems[key].Value() == value && sems[key].waitQueue == []
      ensures forall k | k != key :: k in sems <==> k in old(sems)
      ensures forall k | k in old(sems) && k != key :: sems[k] == old(sems)[k]
    {
      isNew := key !in sems;
      sems := sems[key := Semaphore(value, [])];
    }

    method Remove(key: nat) returns (existed: bool)
      modifies this
      ensures sems == Apply(old(sems), Op.Remove(key)).0
      ensures existed <==> key in old(sems)
      ensures key !in sems && forall k | k in old(sems) && k != key :: k in sems && sems[k] == old(sems)[k]
    {
      existed := key in sems;
      sems := sems - {key};
    }

    method Wait(key: nat, pid: Pid) returns (r: SemaphoreResult)
      modifies this
      ensures (sems, r) == Apply(old(sems), Op.Wait(key, pid))
    {
      if key in sems {
        var sem := sems[key];
        if sem.count == 0 {
          sems := sems[key := sem.(waitQueue := sem.waitQueue + [pid])];
          return Block(pid);
        }
        sems := sems[key := sem.(count := sem.count - 1)];
        r := Ok;
      } else {
        r := NotExist;
      }
    }

    method Signal(key: nat) returns (r: SemaphoreResult)
      modifies this
      ensures (sems, r) == Apply(old(sems), Op.Signal(key))
    {
      if key in sems {
        var sem := sems[key];
        if sem.waitQueue != [] {
          sems := sems[key := sem.(waitQueue := sem.waitQueue[1..])];
          return WakeUp(sem.waitQueue[0]);
        }
        sems := sems[key := sem.(count := (sem.count + 1) % WORD_MODULUS)];
        r := Ok;
      } else {
        r := NotExist;
      }
    }
  }

  // ---- Whole traces --------------------------------------------------------

  ghost function Run(sems: Semaphores, ops: seq<Op>): Semaphores
    decreases ops
  {
    if ops == [] then sems else Run(Apply(sems, ops[0]).0, ops[1..])
  }

  lemma RunThree(sems: Semaphores, a: Op, b: Op, c: Op)
    ensures Run(sems, [a, b, c]) == Apply(Apply(Apply(sems, a).0, b).0, c).0
  {
    hide Apply;
    assert [a, b, c][1..] == [b, c] && [b, c][1..] == [c] && [c][1..] == [];
    assert Run(Apply(Apply(sems, a).0, b).0, [c]) == Apply(Apply(Apply(sems, a).0, b).0, c).0;
  }

  /** No operation of the trace creates or removes the semaphore `key`. */
  ghost predicate Keeps(ops: seq<Op>, key: nat) {
    forall op | op in ops && op.key == key :: op.Wait? || op.Signal?
  }

  ghost function Signals(ops: seq<Op>, key: nat): nat {
    if ops == [] then 0
    else (if ops[0] == Op.Signal(key) then 1 else 0) + Signals(ops[1..], key)
  }

  ghost function Waits(ops: seq<Op>, key: nat): nat {
    if ops == [] then 0
    else (if ops[0].Wait? && ops[0].key == key then 1 else 0) + Waits(ops[1..], key)
  }

  /** The processes that `key` blocked, in the order in which they arrived. */
  ghost function Blocked(sems: Semaphores, ops: seq<Op>, key: nat): seq<Pid>
    decreases ops
  {
    if ops == [] then []
    else
      var (next, r) := Apply(sems, ops[0]);
      (if ops[0].key == key && r.Block? then [r.pid] else []) + Blocked(next, ops[1..], key)
  }

  /** The processes that `key` woke, in the order in which they were woken. */
  ghost function Woken(sems: Semaphores, ops: seq<Op>, key: nat): seq<Pid>
    decreases ops
  {
    if ops == [] then []
    else
      var (next, r) := Apply(sems, ops[0]);
      (if ops[0].key == key && r.WakeUp? then [r.pid] else []) + Woken(next, ops[1..], key)
  }

  /** The semaphore answers as the integer would: it blocks at or below zero and
    * wakes below zero. */
  lemma AnswersLikeAnInteger(sem: Semaphore, pid: Pid)
    requires sem.Settled()
    ensures sem.Wait(pid).1 == Block(pid) <==> sem.Value() <= 0
    ensures sem.Wait(pid).0.Value() == sem.Value() - 1
    ensures sem.Signal().1.WakeUp? <==> sem.Value() < 0
    ensures sem.Wait(pid).0.Settled() && sem.Signal().0.Settled()
  {
    assert |sem.waitQueue| == 0 <==> sem.waitQueue == [];
  }

  /** A signal adds one exactly when the 64-bit counter has room for it. */
  lemma SignalAddsOneUnlessFull(sem: Semaphore)
    requires sem.count < WORD_MODULUS
    ensures sem.Signal().0.Value() == sem.Value() + 1
       <==> !(sem.waitQueue == [] && sem.count == WORD_MODULUS - 1)
  {
    if sem.waitQueue == [] && sem.count < WORD_MODULUS - 1 {
      assert (sem.count + 1) % WORD_MODULUS == sem.count + 1;
    }
  }

  /** What one operation of such a trace does to the semaphore `key`. */
  lemma StepRefinesInteger(sems: Semaphores, op: Op, key: nat)
    requires key in sems && sems[key].Settled()
    requires op.key == key ==> op.Wait? || op.Signal?
    requires op == Op.Signal(key) ==> sems[key].count + 1 < WORD_MODULUS
    ensures var (next, r) := Apply(sems, op);
      && key in next && next[key].Settled()
      && next[key].count <= sems[key].count + (if op == Op.Signal(key) then 1 else 0)
      && next[key].Value() == sems[key].Value()
           + (if op == Op.Signal(key) then 1 else 0) - (if op.Wait? && op.key == key then 1 else 0)
      && (if op.key == key && r.WakeUp? then [r.pid] else []) + next[key].waitQueue
           == sems[key].waitQueue + (if op.key == key && r.Block? then [r.pid] else [])
  {
    if op == Op.Signal(key) {
      SignalAddsOneUnlessFull(sems[key]);
    }
  }

  /** Between creation and removal, whatever happens to other keys, the semaphore
    * is `initial + signals - waits`, tokens and waiters never coexist, and the
    * processes woken so far, followed by those still queued, are the blocked
    * ones in arrival order. */
  lemma {:induction false} TraceRefinesInteger(sems: Semaphores, ops: seq<Op>, key: nat)
    requires key in sems && sems[key].Settled()
    requires Keeps(ops, key)
    requires sems[key].count + Signals(ops, key) < WORD_MODULUS
    ensures key in Run(sems, ops)
    ensures Run(sems, ops)[key].Settled()
    ensures Run(sems, ops)[key].Value() == sems[key].Value() + Signals(ops, key) - Waits(ops, key)
    ensures Woken(sems, ops, key) + Run(sems, ops)[key].waitQueue
         == sems[key].waitQueue + Blocked(sems, ops, key)
    decreases ops
  {
    if ops != [] {
      var op, rest := ops[0], ops[1..];
      hide Apply;
      var (next, r) := Apply(sems, op);
      assert op in ops;
      StepRefinesInteger(sems, op, key);
      TraceRefinesInteger(next, rest, key);
      var woken := if op.key == key && r.WakeUp? then [r.pid] else [];
      var blocked := if op.key == key && r.Block? then [r.pid] else [];
      Interleave(woken, Woken(next, rest, key), Run(next, rest)[key].waitQueue, next[key].waitQueue,
                 Blocked(next, rest, key), sems[key].waitQueue, blocked);
    }
  }

  lemma Interleave(woken: seq<Pid>, laterWoken: seq<Pid>, queue: seq<Pid>, next: seq<Pid>, laterBlocked: seq<Pid>,
                   first: seq<Pid>, blocked: seq<Pid>)
    requires laterWoken + queue == next + laterBlocked && woken + next == first + blocked
    ensures (woken + laterWoken) + queue == first + (blocked + laterBlocked)
  {
    assert (woken + laterWoken) + queue == woken + (laterWoken + queue);
    assert woken + (next + laterBlocked) == (woken + next) + laterBlocked;
    assert (first + blocked) + laterBlocked == first + (blocked + laterBlocked);
  }

  /** A new semaphore has the value that was asked for and no waiters, whatever had the key
    * before, and no other key changes. From there on the integer is `value + signals -
    * waits`, and the processes woken so far, followed by those still queued, are the
    * blocked ones in arrival order. */
  lemma CreatedRefinesInteger(sems: Semaphores, key: nat, value: nat, ops: seq<Op>)
    requires Keeps(ops, key) && value + Signals(ops, key) < WORD_MODULUS
    ensures var made := Apply(sems, Op.Insert(key, value)).0;
      && (forall k | k != key :: k in made <==> k in sems) && (forall k | k in sems && k != key :: made[k] == sems[k])
      && key in Run(made, ops) && Run(made, ops)[key].Settled()
      && Run(made, ops)[key].Value() == value + Signals(ops, key) - Waits(ops, key)
      && Woken(made, ops, key) + Run(made, ops)[key].waitQueue == Blocked(made, ops, key)
  {
    var made := Apply(sems, Op.Insert(key, value)).0;
    assert made[key].Value() == value && made[key].waitQueue == [];
    TraceRefinesInteger(made, ops, key);
    assert made[key].waitQueue + Blocked(made, ops, key) == Blocked(made, ops, key);
  }

  /** No operation of the trace creates the semaphore `key`. */
  ghost predicate NeverMakes(ops: seq<Op>, key: nat) {
    forall op | op in ops && op.key == key :: !op.Insert?
  }

  /** A removed semaphore is gone until it is created again: waits and signals answer that
    * there is none, nobody blocks and nobody is woken, and no other key has changed. */
  lemma RemovedIsGone(sems: Semaphores, key: nat, ops: seq<Op>, op: Op)
    requires NeverMakes(ops, key) && op.key == key && !op.Insert?
    ensures var left := Apply(sems, Op.Remove(key)).0;
      && (forall k | k != key :: k in left <==> k in sems) && (forall k | k in left :: left[k] == sems[k])
      && key !in Run(left, ops) && Apply(Run(left, ops), op) == (Run(left, ops), NotExist)
      && Woken(left, ops, key) == Blocked(left, ops, key) == []
  {
    MissingStaysMissing(Apply(sems, Op.Remove(key)).0, key, ops);
    var left := Run(Apply(sems, Op.Remove(key)).0, ops);
    assert left - {key} == left;
  }

  lemma {:induction false} MissingStaysMissing(sems: Semaphores, key: nat, ops: seq<Op>)
    requires key !in sems && NeverMakes(ops, key)
    ensures key !in Run(sems, ops) && Woken(sems, ops, key) == Blocked(sems, ops, key) == []
    decreases ops
  {
    if ops != [] {
      assert ops[0] in ops && forall op | op in ops[1..] :: op in ops;
      MissingStaysMissing(Apply(sems, ops[0]).0, key, ops[1..]);
    }
  }

  /** Creating or removing a key forgets its waiters: whatever happens to the key later, no
    * signal wakes them unless they wait again. */
  lemma WaitersAreForgotten(sems: Semaphores, key: nat, op: Op, ops: seq<Op>, pid: Pid)
    requires key in sems && pid in sems[key].waitQueue
    requires op.key == key && (op.Insert? || op.Remove?)
    requires forall op | op in ops :: op != Op.Wait(key, pid)
    ensures pid !in Woken(Apply(sems, op).0, ops, key)
  {
    NotQueuedIsNotWoken(Apply(sems, op).0, ops, key, pid);
  }

  lemma {:induction false} NotQueuedIsNotWoken(sems: Semaphores, ops: seq<Op>, key: nat, pid: Pid)
    requires key in sems ==> pid !in sems[key].waitQueue
    requires forall op | op in ops :: op != Op.Wait(key, pid)
    ensures pid !in Woken(sems, ops, key)
    decreases ops
  {
    if ops != [] {
      assert ops[0] in ops && forall op | op in ops[1..] :: op in ops;
      NotQueuedIsNotWoken(Apply(sems, ops[0]).0, ops[1..], key, pid);
    }
  }
}
