/** The address spaces of a family as objects: what the kernel does to them are the steps
  * of the family. */
module Relatives {
  import opened Common
  import opened Frames
  import opened Paging
  import opened PageTables
  import opened Stacks
  import opened Heaps
  import opened Families
  import opened PhysicalMemory
  import A = AddressSpaces

  // ---- The frames of a family are in memory ----------------------------------------------------

  ghost predicate InMemory(f: Family, frames: nat) {
    Backed(f.mem, frames) && forall x | x in f.held :: x < frames
  }

  lemma GrowsIsBacked(m: Mem, t: Mem, frames: nat)
    requires Backed(m, frames) && Grows(m, t)
    ensures Backed(t, frames)
  {
  }

  lemma ShrinksIsBacked(m: Mem, t: Mem, frames: nat)
    requires Backed(m, frames) && Shrinks(m, t)
    ensures Backed(t, frames)
  {
  }

  lemma OthersStayInMemory(f: Family, step: Step, frames: nat)
    requires Inv(f) && Possible(f, step) && InMemory(f, frames) && (step.OtherAllocates? || step.OtherFrees?)
    ensures InMemory(Next(f, step), frames)
  {
    if step.OtherAllocates? {
      AllocateKeepsSound(f.mem, f.held);
    } else {
      DeallocateGives(f.mem.alloc, step.frame);
    }
  }

  lemma StepStaysInMemory(f: Family, step: Step, frames: nat)
    requires Inv(f) && Possible(f, step) && InMemory(f, frames)
    ensures InMemory(Next(f, step), frames)
  {
    hide Sound;
    hide Backed;
    hide MapRange;
    hide CleanUp;
    hide ForkStack;
    var g := Next(f, step);
    match step
    case Fork(parent, child, count) =>
      StackIsMapped(f, parent);
      ForkedStackIsLive(f.mem, f.held, f.stacks[parent], count);
      GrowsIsBacked(f.mem, g.mem, frames);
    case Fault(pid, addr) =>
      OnStackIffInSlot(f.stacks[pid], addr);
      if IsOnStack(f.stacks[pid], addr) {
        StackIsMapped(f, pid);
        FaultIsBelowStack(f.mem, f.stacks[pid], addr);
        var lo, n := addr / PAGE_SIZE, f.stacks[pid].start - addr / PAGE_SIZE;
        var done := MapRangeEffect(f.mem, f.held, lo, n, USER_FLAGS);
        ExtendsIsGrows(f.mem, g.mem, lo, done, USER_FLAGS);
        GrowsIsBacked(f.mem, g.mem, frames);
      }
    case Break(_, newEnd) =>
      if newEnd.Some? && ValidEnd(newEnd.value) {
        var lo, n := EndPage(f.heapEnd), GrowthOf(f.heapEnd, newEnd.value);
        var done := MapRangeEffect(f.mem, f.held, lo, n, USER_FLAGS);
        ExtendsIsGrows(f.mem, MapRange(f.mem, lo, n, USER_FLAGS).0, lo, done, USER_FLAGS);
        GrowsIsBacked(f.mem, MapRange(f.mem, lo, n, USER_FLAGS).0, frames);
      }
    case Death(pid) =>
      DeathGivesBack(f, pid);
      ShrinksIsBacked(f.mem, g.mem, frames);
    case OtherAllocates => OthersStayInMemory(f, step, frames);
    case OtherFrees(_) => OthersStayInMemory(f, step, frames);
  }

  // ---- Steps -------------------------------------------------------------------------------------

  lemma OneLess(vms: map<Pid, A.ProcessVm>, pid: Pid)
    requires pid in vms
    ensures |vms - {pid}| == |vms| - 1 && (vms - {pid}).Keys == vms.Keys - {pid}
  {
    assert (vms - {pid}).Keys == vms.Keys - {pid};
  }

  lemma OneMore(vms: map<Pid, A.ProcessVm>, pid: Pid, vm: A.ProcessVm)
    requires pid !in vms
    ensures |vms[pid := vm]| == |vms| + 1 && vms[pid := vm].Keys == vms.Keys + {pid}
  {
    assert vms[pid := vm].Keys == vms.Keys + {pid};
  }

  lemma AfterFork(f: Family, parent: Pid, child: Pid, count: nat)
    requires parent in f.stacks && ForkStack(f.mem, f.stacks[parent], count).Some?
    ensures var (m, st) := ForkStack(f.mem, f.stacks[parent], count).value;
      Next(f, Step.Fork(parent, child, count)) == f.(mem := m, stacks := f.stacks[child := st])
  {
    hide ForkStack;
  }

  lemma StackIsLiveAndMapped(f: Family, pid: Pid)
    requires Inv(f) && pid in f.stacks
    ensures Live(f.stacks[pid]) && FullyMapped(f.stacks[pid], f.mem) && Sound(f.mem, f.held)
  {
    hide Sound;
    StackIsMapped(f, pid);
  }

  lemma MemberIs(vms: map<Pid, A.ProcessVm>, h: A.Handles, f: Family, pid: Pid)
    requires A.Members(vms, h, f) && pid in vms
    ensures pid in f.stacks && |vms| == |f.stacks|
    ensures vms[pid].table == h.table && vms[pid].users == h.users && vms[pid].heap.end == h.end
    ensures vms[pid].stack.View() == f.stacks[pid] && vms[pid].code == if pid == f.loader then f.code else []
  {
    assert |vms.Keys| == |vms| && |f.stacks.Keys| == |f.stacks|;
  }

  lemma MemberJoins(vms: map<Pid, A.ProcessVm>, h: A.Handles, f: Family, pid: Pid, vm: A.ProcessVm, g: Family)
    requires A.Members(vms, h, f) && pid !in vms
    requires vm.table == h.table && vm.users == h.users && vm.heap.end == h.end
    requires vm.code == if pid == f.loader then f.code else []
    requires forall q | q in vms :: vms[q].stack != vm.stack
    requires g.stacks == f.stacks[pid := vm.stack.View()] && g.loader == f.loader && g.code == f.code
    ensures A.Members(vms[pid := vm], h, g)
  {
  }

  lemma MemberLeaves(vms: map<Pid, A.ProcessVm>, h: A.Handles, f: Family, pid: Pid, g: Family)
    requires A.Members(vms, h, f) && pid in vms
    requires g.stacks == f.stacks - {pid} && g.loader == f.loader && (|f.stacks| > 1 ==> g.code == f.code)
    ensures A.Members(vms - {pid}, h, g)
    ensures forall q | q in vms - {pid} :: (vms - {pid})[q].stack != vms[pid].stack
  {
    OneLess(vms, pid);
    if |f.stacks| <= 1 {
      LastMember(f.stacks, pid);
    }
  }

  /** Without a free slot in reach, or without frames, the kernel stops. */
  method Fork(vms: map<Pid, A.ProcessVm>, h: A.Handles, a: FrameAllocator, ram: array2<Byte>,
              parent: Pid, child: Pid, count: nat, ghost f: Family)
    returns (stopped: bool, now: map<Pid, A.ProcessVm>)
    requires A.Represents(vms, h, a, f) && Inv(f) && InMemory(f, ram.Length0) && ram.Length1 == PAGE_SIZE
    requires parent in vms && child !in vms && child != f.loader
    modifies h.table, h.users, a, ram
    ensures stopped <==> ForkStack(f.mem, f.stacks[parent], count).None?
    ensures stopped ==> now == vms
    ensures !stopped ==> child in now && now == vms[child := now[child]] && fresh(now[child].stack)
    ensures !stopped ==> A.Represents(now, h, a, Next(f, Step.Fork(parent, child, count)))
  {
    hide Inv;
    hide Backed;
    hide Live;
    hide FullyMapped;
    hide Sound;
    hide Next;
    hide ForkStack;
    hide A.SameStack;
    hide A.SameReads;
    hide Contents;
    hide A.Members;
    MemberIs(vms, h, f, parent);
    StackIsLiveAndMapped(f, parent);
    var r := vms[parent].Fork(count, a, ram, f.held);
    stopped, now := r == null, vms;
    if r != null {
      AfterFork(f, parent, child, count);
      OneMore(vms, child, r);
      assert A.Members(vms, h, f);
      MemberJoins(vms, h, f, child, r, Next(f, Step.Fork(parent, child, count)));
      now := vms[child := r];
    }
  }

  method Fault(vms: map<Pid, A.ProcessVm>, h: A.Handles, a: FrameAllocator, pid: Pid, addr: nat, ghost f: Family)
    returns (r: GrowResult)
    requires A.Represents(vms, h, a, f) && pid in vms
    modifies vms[pid].stack, h.table, a
    ensures A.Represents(vms, h, a, Next(f, Step.Fault(pid, addr)))
    ensures r == HandleFault(f.mem, f.stacks[pid], addr, true).2
  {
    hide HandleFault;
    hide Next;
    hide A.Members;
    MemberIs(vms, h, f, pid);
    AfterFault(f, pid, addr);
    ghost var others, rest := vms - {pid}, f.(stacks := f.stacks - {pid});
    MemberLeaves(vms, h, f, pid, rest);
    r := vms[pid].HandlePageFault(addr, true, a);
    MemberJoins(others, h, rest, pid, vms[pid], Next(f, Step.Fault(pid, addr)));
    assert others[pid := vms[pid]] == vms;
  }

  lemma AfterFault(f: Family, pid: Pid, addr: nat)
    requires pid in f.stacks
    ensures var (m, st, _) := HandleFault(f.mem, f.stacks[pid], addr, true);
      var g := Next(f, Step.Fault(pid, addr));
      && g.mem == m && g.stacks == f.stacks[pid := st] == (f.stacks - {pid})[pid := st]
      && g == f.(mem := g.mem, stacks := g.stacks)
  {
    hide GrowStack;
    assert f.stacks[pid := f.stacks[pid]] == f.stacks;
  }

  lemma SameMembers(vms: map<Pid, A.ProcessVm>, h: A.Handles, f: Family, g: Family)
    requires A.Members(vms, h, f) && g.stacks == f.stacks && g.loader == f.loader && g.code == f.code
    ensures A.Members(vms, h, g)
  {
  }

  method Break(vms: map<Pid, A.ProcessVm>, h: A.Handles, a: FrameAllocator, pid: Pid, newEnd: Option<nat>,
               ghost f: Family)
    returns (r: Option<nat>)
    requires A.Represents(vms, h, a, f) && pid in vms
    modifies h.end, h.table, a
    ensures A.Represents(vms, h, a, Next(f, Step.Break(pid, newEnd)))
    ensures r == Brk(f.mem, f.heapEnd, newEnd).2
  {
    hide Brk;
    hide A.Members;
    MemberIs(vms, h, f, pid);
    SameMembers(vms, h, f, Next(f, Step.Break(pid, newEnd)));
    r := vms[pid].Brk(newEnd, a);
  }

  lemma AfterDeath(f: Family, pid: Pid)
    requires pid in f.stacks
    ensures var (m, end, _) :=
        CleanUpSpace(f.mem, f.stacks[pid], |f.stacks| == 1, f.heapEnd, if pid == f.loader then f.code else []);
      var g := Next(f, Step.Death(pid));
      && g.mem == m && g.heapEnd == end && g.stacks == f.stacks - {pid} && g.loader == f.loader
      && (|f.stacks| > 1 ==> g.code == f.code)
  {
    hide CleanUpSpace;
  }

  /** The clean-up of a dead member never fails, and gives back exactly its own stack; that of
    * the last one also the heap, and the code if it loaded it. */
  method Death(vms: map<Pid, A.ProcessVm>, h: A.Handles, a: FrameAllocator, pid: Pid, ghost f: Family)
    returns (ok: bool, now: map<Pid, A.ProcessVm>)
    requires A.Represents(vms, h, a, f) && Inv(f) && pid in vms
    modifies vms[pid].stack, h.end, h.users, h.table, a
    ensures now == vms - {pid} && A.Represents(now, h, a, Next(f, Step.Death(pid)))
    ensures ok && CleanedUp(f, pid, h.table.View(a))
  {
    hide Inv;
    hide CleanedUp;
    hide CleanUpSpace;
    hide Next;
    hide A.Members;
    MemberIs(vms, h, f, pid);
    DeathGivesBack(f, pid);
    AfterDeath(f, pid);
    OneLess(vms, pid);
    MemberLeaves(vms, h, f, pid, Next(f, Step.Death(pid)));
    now := vms - {pid};
    ok := vms[pid].Drop(a);
  }

  // ---- Whole runs --------------------------------------------------------------------------------

  ghost function StacksOf(vms: map<Pid, A.ProcessVm>): set<A.UserStack> { set pid | pid in vms :: vms[pid].stack }

  /** Somebody else takes a frame or gives one back. */
  method Other(vms: map<Pid, A.ProcessVm>, h: A.Handles, a: FrameAllocator, step: Step, ghost f: Family)
    requires A.Represents(vms, h, a, f) && (step.OtherAllocates? || step.OtherFrees?)
    modifies a
    ensures A.Represents(vms, h, a, Next(f, step))
  {
    hide A.Members;
    SameMembers(vms, h, f, Next(f, step));
    if step.OtherAllocates? {
      var frame := a.AllocateFrame();
    } else {
      a.DeallocateFrame(step.frame);
    }
  }

  lemma StacksAfterJoin(vms: map<Pid, A.ProcessVm>, pid: Pid, vm: A.ProcessVm)
    ensures StacksOf(vms[pid := vm]) <= StacksOf(vms) + {vm.stack}
  {
  }

  lemma StacksAfterLeave(vms: map<Pid, A.ProcessVm>, pid: Pid)
    ensures StacksOf(vms - {pid}) <= StacksOf(vms)
  {
  }

  /** A step after which the members are the same. */
  method PerformInside(vms: map<Pid, A.ProcessVm>, h: A.Handles, a: FrameAllocator, step: Step, ghost f: Family)
    requires A.Represents(vms, h, a, f) && Possible(f, step) && !step.Fork? && !step.Death?
    modifies h.table, h.end, a, StacksOf(vms)
    ensures A.Represents(vms, h, a, Next(f, step))
  {
    hide A.Members;
    hide HandleFault;
    hide Brk;
    hide Next;
    MembersHaveStacks(vms, h, f);
    hide A.Represents;
    if step.Fault? {
      var r := Fault(vms, h, a, step.pid, step.addr, f);
    } else if step.Break? {
      var r := Break(vms, h, a, step.pid, step.newEnd, f);
    } else {
      Other(vms, h, a, step, f);
    }
  }

  /** A fork that returns, or a death. */
  method PerformOutside(vms: map<Pid, A.ProcessVm>, h: A.Handles, a: FrameAllocator, ram: array2<Byte>, step: Step,
                        ghost f: Family)
    returns (now: map<Pid, A.ProcessVm>)
    requires A.Represents(vms, h, a, f) && Inv(f) && InMemory(f, ram.Length0) && ram.Length1 == PAGE_SIZE
    requires Possible(f, step) && (step.Fork? || step.Death?)
    modifies h.table, h.users, h.end, a, ram, StacksOf(vms)
    ensures A.Represents(now, h, a, Next(f, step))
    ensures fresh(StacksOf(now) - StacksOf(vms))
  {
    hide Inv;
    hide InMemory;
    hide A.Members;
    hide CleanedUp;
    hide ForkStack;
    hide Next;
    MembersHaveStacks(vms, h, f);
    hide A.Represents;
    hide StacksOf;
    if step.Fork? {
      var stopped;
      stopped, now := Fork(vms, h, a, ram, step.parent, step.child, step.count, f);
      StacksAfterJoin(vms, step.child, now[step.child]);
    } else {
      var ok;
      ok, now := Death(vms, h, a, step.pid, f);
      StacksAfterLeave(vms, step.pid);
    }
  }

  /** One step of a member, or of somebody else who takes or gives back a frame. */
  method Perform(vms: map<Pid, A.ProcessVm>, h: A.Handles, a: FrameAllocator, ram: array2<Byte>, step: Step,
                 ghost f: Family)
    returns (now: map<Pid, A.ProcessVm>)
    requires A.Represents(vms, h, a, f) && Inv(f) && InMemory(f, ram.Length0) && ram.Length1 == PAGE_SIZE
    requires Possible(f, step)
    modifies h.table, h.users, h.end, a, ram, StacksOf(vms)
    ensures A.Represents(now, h, a, Next(f, step))
    ensures fresh(StacksOf(now) - StacksOf(vms))
  {
    hide *;
    now := vms;
    if step.Fork? || step.Death? {
      now := PerformOutside(vms, h, a, ram, step, f);
    } else {
      PerformInside(vms, h, a, step, f);
    }
  }

  lemma MembersHaveStacks(vms: map<Pid, A.ProcessVm>, h: A.Handles, f: Family)
    requires A.Members(vms, h, f)
    ensures vms.Keys == f.stacks.Keys && forall pid | pid in vms :: vms[pid].stack in StacksOf(vms)
  {
  }

  /** Through every run the objects are the family of the state machine, so that all that is
    * proved of its runs holds of them. */
  method PerformAll(vms: map<Pid, A.ProcessVm>, h: A.Handles, a: FrameAllocator, ram: array2<Byte>, steps: seq<Step>,
                    ghost f: Family)
    returns (now: map<Pid, A.ProcessVm>)
    requires A.Represents(vms, h, a, f) && Inv(f) && InMemory(f, ram.Length0) && ram.Length1 == PAGE_SIZE
    requires Allowed(f, steps)
    modifies h.table, h.users, h.end, a, ram, StacksOf(vms)
    ensures A.Represents(now, h, a, Run(f, steps)) && Inv(Run(f, steps)) && InMemory(Run(f, steps), ram.Length0)
  {
    hide Inv;
    hide InMemory;
    hide A.Represents;
    hide Possible;
    hide Next;
    now := vms;
    ghost var g := f;
    assert steps[0..] == steps;
    for i := 0 to |steps|
      invariant A.Represents(now, h, a, g) && Inv(g) && InMemory(g, ram.Length0)
      invariant Allowed(g, steps[i..]) && Run(g, steps[i..]) == Run(f, steps)
      invariant fresh(StacksOf(now) - StacksOf(vms))
    {
      assert steps[i..][0] == steps[i] && steps[i..][1..] == steps[i + 1..];
      StepKeepsInv(g, steps[i]);
      StepStaysInMemory(g, steps[i], ram.Length0);
      now := Perform(now, h, a, ram, steps[i], g);
      g := Next(g, steps[i]);
    }
  }
}
