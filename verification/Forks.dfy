/** The two returns of fork, with the memory behind them. */
module Forks {
  import opened Common
  import opened Frames
  import opened Paging
  import opened Stacks
  import opened PhysicalMemory
  import opened AddressSpaces
  import Scheduler
  import SchedulerInvariant
  import SchedulerFairness

  /** Above its stack pointer the one process reads what the other reads. */
  ghost predicate SameAbove(pages: map<nat, Mapping>, rows: Rows, rsp: nat,
                            pages': map<nat, Mapping>, rows': Rows, rsp': nat, size: nat) {
    forall d | 0 <= d < size ::
      ReadAt(pages', rows', Shifted(rsp', d)) == ReadAt(pages, rows, Shifted(rsp, d)) != None
  }

  ghost function Shifted(rsp: nat, d: nat): nat { rsp + d }

  /** Fork returns in the parent with the child's pid and in the child with zero. All
    * other registers agree, except that the child's stack pointer stands at the same
    * place of its own stack, above which it finds the same bytes. */
  lemma ForkReturnsTwiceOnEqualStacks(s: Scheduler.State, m: Mem, held: set<Frame>, st: Stack, count: nat,
                                      was: Rows, now: Rows)
    requires SchedulerInvariant.Inv(s) && s.nextPid + 1 < Scheduler.PID_MODULUS
    requires Sound(m, held) && Live(st) && FullyMapped(st, m) && ForkStack(m, st, count).Some?
    requires Backed(m, |was|) && (forall f | 0 <= f < |was| :: |was[f]| == PAGE_SIZE)
    requires st.start * PAGE_SIZE <= s.cpu.rsp < st.end * PAGE_SIZE
    requires var (t, child) := ForkStack(m, st, count).value;
      && Accessible(t.pages, |was|, st.start, st.usage) && Accessible(t.pages, |was|, child.start, st.usage)
      && Cloned(was, now, t.pages, st.start, child.start, st.usage)
    ensures var (t, child) := ForkStack(m, st, count).value;
      var u, pid := Scheduler.ForkStep(s, StackOffset(child, st)), s.nextPid;
      var size := st.end * PAGE_SIZE - s.cpu.rsp;
      && pid in u.processes && s.current in u.processes
      && var parents := u.processes[s.current].context;
      var childs := if u.current == pid then u.cpu else u.processes[pid].context;
      && parents == s.cpu.(rax := pid)
      && childs == s.cpu.(rax := 0, rsp := childs.rsp)
      && childs.rsp - child.start * PAGE_SIZE == s.cpu.rsp - st.start * PAGE_SIZE
      && SameAbove(m.pages, was, s.cpu.rsp, t.pages, now, childs.rsp, size)
      && SameAbove(m.pages, was, s.cpu.rsp, t.pages, now, parents.rsp, size)
  {
    hide SchedulerInvariant.Inv;
    hide Scheduler.ForkStep;
    hide Sound;
    hide Backed;
    hide Accessible;
    hide Cloned;
    hide Live;
    hide FullyMapped;
    hide ForkStack;
    var (t, child) := ForkStack(m, st, count).value;
    SchedulerFairness.ForkReturnsTwice(s, StackOffset(child, st));
    ForkCopiesStack(m, held, st, count, was, now);
    ForkedIsAlike(m, held, st, count);
    ForkedPointer(st, child, s.cpu.rsp);
    AboveStackPointer(m.pages, was, t.pages, now, st, child, s.cpu.rsp);
  }

  lemma ForkedIsAlike(m: Mem, held: set<Frame>, st: Stack, count: nat)
    requires Sound(m, held) && Live(st) && FullyMapped(st, m) && ForkStack(m, st, count).Some?
    ensures var child := ForkStack(m, st, count).value.1; Live(child) && child.usage == st.usage
  {
    hide Sound;
    hide ForkStack;
    ForkedStackIsLive(m, held, st, count);
  }

  lemma AboveStackPointer(was: map<nat, Mapping>, before: Rows, now: map<nat, Mapping>, after: Rows,
                          st: Stack, child: Stack, rsp: nat)
    requires SameStack(was, before, now, after, st, child) && SameReads(was, before, now, after)
    requires Live(st) && Live(child) && child.usage == st.usage
    requires st.start * PAGE_SIZE <= rsp < st.end * PAGE_SIZE
    ensures var moved := Moved(rsp, StackOffset(child, st));
      && SameAbove(was, before, rsp, now, after, moved, st.end * PAGE_SIZE - rsp)
      && SameAbove(was, before, rsp, now, after, rsp, st.end * PAGE_SIZE - rsp)
  {
    hide ReadAt;
    hide StackOffset;
    hide Moved;
    hide Live;
    var moved := Moved(rsp, StackOffset(child, st));
    ForkedPointer(st, child, rsp);
    forall d | 0 <= d < st.end * PAGE_SIZE - rsp
      ensures ReadAt(now, after, Shifted(moved, d)) == ReadAt(was, before, Shifted(rsp, d)) != None
      ensures ReadAt(now, after, Shifted(rsp, d)) == ReadAt(was, before, Shifted(rsp, d))
    {
      ForkedPointer(st, child, rsp + d);
      assert Shifted(moved, d) == Moved(rsp + d, StackOffset(child, st));
    }
  }
}
