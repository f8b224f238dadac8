/** The link between a semaphore's queue and the processes of a user program: the
  * queue holds exactly the processes that are blocked on the semaphore, once each.
  * Processes are positions of a sequence. */
module WaitQueues {
  import opened Common
  import opened Semaphores

  ghost predicate Queued<T>(sem: Semaphore, procs: seq<T>, blocked: T -> bool) {
    && sem.Settled()
    && NoDuplicates(sem.waitQueue)
    && (forall j: nat :: j in sem.waitQueue <==> j < |procs| && blocked(procs[j]))
  }

  lemma Enqueue<T>(sem: Semaphore, procs: seq<T>, i: nat, p: T, blocked: T -> bool)
    requires Queued(sem, procs, blocked) && sem.count == 0
    requires i < |procs| && !blocked(procs[i]) && blocked(p)
    ensures Queued(sem.Wait(i).0, procs[i := p], blocked)
  {
    var q := sem.waitQueue + [i];
    forall j: nat ensures j in q <==> j < |procs| && blocked(procs[i := p][j]) {
      assert j in q <==> j in sem.waitQueue || j == i;
    }
  }

  lemma Dequeue<T>(sem: Semaphore, procs: seq<T>, p: T, blocked: T -> bool)
    requires Queued(sem, procs, blocked) && sem.waitQueue != [] && !blocked(p)
    ensures sem.waitQueue[0] < |procs| && blocked(procs[sem.waitQueue[0]])
    ensures Queued(sem.Signal().0, procs[sem.waitQueue[0] := p], blocked)
  {
    var h, q := sem.waitQueue[0], sem.waitQueue[1..];
    assert h in sem.waitQueue;
    forall j: nat ensures j in q <==> j < |procs| && blocked(procs[h := p][j]) {
      assert sem.waitQueue == [h] + q;
      assert h !in q;
      assert j in sem.waitQueue <==> j == h || j in q;
    }
  }

  /** A step of a process whose blocking on this semaphore does not change. */
  lemma StaysQueued<T>(sem: Semaphore, sem': Semaphore, procs: seq<T>, i: nat, p: T, blocked: T -> bool)
    requires Queued(sem, procs, blocked)
    requires i < |procs| && blocked(procs[i]) == blocked(p)
    requires sem'.waitQueue == sem.waitQueue && sem'.Settled()
    ensures Queued(sem', procs[i := p], blocked)
  {
  }
}
