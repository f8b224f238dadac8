/** The `fish` program: three children pass a turn around with the semaphores
  * PROCESS[0..2] and print the characters of a fish, one per turn. WAITER guards
  * the prints of children 0 and 2. */
module Fish {
  import opened K = Semaphores

  datatype Op = Acquire(sem: nat) | Release(sem: nat) | Print(c: char)

  const WAITER: nat := 3

  /** One pass of the loop of child `id`. */
  function Body(id: nat): seq<Op> {
    if id == 0 then
      [Acquire(0), Acquire(WAITER), Print('>'), Release(WAITER), Release(1),
       Acquire(0), Acquire(WAITER), Print('>'), Release(WAITER), Release(2)]
    else if id == 1 then
      [Acquire(1), Print('<'), Release(0)]
    else
      [Acquire(2), Acquire(WAITER), Print('_'), Release(WAITER), Release(0)]
  }

  /** `idx` is the loop variable, raised by two in every pass; `pc` points into the
    * body. */
  datatype Proc = Proc(idx: nat, pc: nat, blocked: bool)

  /** The parent forks three children, signals PROCESS[0] and waits for each child. */
  datatype State = State(
    procs: seq<Proc>, sems: seq<Semaphore>, out: string,
    forked: nat, started: bool, joined: nat)

  datatype Actor = Parent | Child(id: nat)

  ghost predicate Shape(s: State) {
    |s.procs| == 3 && |s.sems| == 4 && forall i | 0 <= i < 3 :: s.procs[i].pc < |Body(i)|
  }

  function Advance(p: Proc, id: nat): Proc {
    if p.pc + 1 == |Body(id)| then Proc(p.idx + 2, 0, false) else Proc(p.idx, p.pc + 1, false)
  }

  /** A signal wakes the head of the queue, which then has finished its wait. */
  function SignalTo(s: State, k: nat): State
    requires |s.procs| == 3 && k < |s.sems|
  {
    var (sem, r) := s.sems[k].Signal();
    var t := s.(sems := s.sems[k := sem]);
    if r.WakeUp? && r.pid < 3 then t.(procs := t.procs[r.pid := Advance(t.procs[r.pid], r.pid)]) else t
  }

  function ChildStep(s: State, i: nat): State
    requires |s.procs| == 3 && |s.sems| == 4 && i < 3 && s.procs[i].pc < |Body(i)|
  {
    var p := s.procs[i];
    match Body(i)[p.pc]
    case Print(c) => s.(out := s.out + [c], procs := s.procs[i := Advance(p, i)])
    case Acquire(k) =>
      var (sem, r) := s.sems[k].Wait(i);
      s.(sems := s.sems[k := sem], procs := s.procs[i := if r.Ok? then Advance(p, i) else p.(blocked := true)])
    case Release(k) => SignalTo(s.(procs := s.procs[i := Advance(p, i)]), k)
  }

  predicate Enabled(s: State, limit: nat, a: Actor) {
    && |s.procs| == 3 && |s.sems| == 4
    && match a
       case Parent => s.forked < 3 || !s.started || (s.joined < 3 && s.procs[s.joined].idx >= limit)
       case Child(i) =>
         i < 3 && i < s.forked && !s.procs[i].blocked && s.procs[i].idx < limit && s.procs[i].pc < |Body(i)|
  }

  function Step(s: State, limit: nat, a: Actor): State
    requires Enabled(s, limit, a)
  {
    match a
    case Parent =>
      if s.forked < 3 then s.(forked := s.forked + 1)
      else if !s.started then SignalTo(s.(started := true), 0)
      else s.(joined := s.joined + 1)
    case Child(i) => ChildStep(s, i)
  }

  const INIT := State(
    [Proc(0, 0, false), Proc(0, 0, false), Proc(0, 0, false)],
    [Semaphore(0, []), Semaphore(0, []), Semaphore(0, []), Semaphore(1, [])], "", 0, false, 0)

  /** The calls with which the parent creates its semaphores, whatever had their keys before,
    * put the kernel's semaphores into the initial state of the program. */
  lemma CallsMakeInit(sems: K.Semaphores)
    ensures var first := K.Run(sems, [K.Insert(0, 0), K.Insert(1, 0), K.Insert(2, 0)]);
      var made := K.Apply(first, K.Insert(WAITER, 1)).0;
      forall k | 0 <= k < 4 :: k in made && made[k] == INIT.sems[k]
  {
    RunThree(sems, K.Insert(0, 0), K.Insert(1, 0), K.Insert(2, 0));
  }

  /** The first `n` characters of the endless school of fish. */
  ghost function School(n: nat): string { seq(n, (k: nat) => "><>_"[k % 4]) }

  // ---- The turn ------------------------------------------------------------------

  /** The loop `while idx < limit` with steps of two runs this many times. */
  ghost function Rounds(limit: nat): nat { (limit + 1) / 2 }

  /** In every round the turn goes to children 0, 1, 0 and 2. */
  datatype Turn = Turn(round: nat, phase: nat, o: nat) {
    ghost function Owner(): nat { if phase == 1 then 1 else if phase == 3 then 2 else 0 }

    ghost function Length(): nat { if phase == 1 then 3 else 5 }

    ghost function Next(): Turn { if phase < 3 then Turn(round, phase + 1, 0) else Turn(round + 1, 0, 0) }

    /** The owner is `o` operations into its turn; it has printed its character. */
    ghost predicate Printed() { if phase == 1 then o >= 2 else o >= 3 }

    ghost predicate Guarded() { phase != 1 && 2 <= o <= 3 }

    /** The characters printed so far. */
    ghost function Characters(): nat { 4 * round + phase + if Printed() then 1 else 0 }

    ghost predicate Within(limit: nat) {
      && phase < 4 && o < Length()
      && round <= Rounds(limit) && (round == Rounds(limit) ==> phase == o == 0)
    }

    /** The loop variable of child `id` and the start of its next turn in the body. */
    ghost function Idx(id: nat): nat {
      if (id == 0 && phase == 3) || (id == 1 && phase >= 2) then 2 * round + 2 else 2 * round
    }

    ghost function Pc(id: nat): nat {
      (if id == 0 && 1 <= phase <= 2 then 5 else 0) + if id == Owner() then o else 0
    }
  }

  /** `o == 0` means that the token of the turn is still in the owner's semaphore. */
  ghost predicate ChildOk(s: State, limit: nat, turn: Turn, id: nat)
    requires Shape(s) && id < 3
  {
    var p := s.procs[id];
    && p.idx == turn.Idx(id) && p.pc == turn.Pc(id)
    && (p.blocked ==> id < s.forked && p.idx < limit && !(s.started && id == turn.Owner()))
    && (s.forked <= id ==> p == Proc(0, 0, false))
    && (id < s.joined ==> p.idx >= limit)
    && s.sems[id] == Semaphore(
      if s.started && turn.o == 0 && id == turn.Owner() then 1 else 0,
      if p.blocked then [id] else [])
  }

  ghost predicate Inv(s: State, limit: nat, turn: Turn) {
    && Shape(s)
    && turn.Within(limit)
    && s.joined <= s.forked <= 3 && (s.started ==> s.forked == 3) && (s.joined > 0 ==> s.started)
    && (!s.started ==> turn == Turn(0, 0, 0))
    && ChildOk(s, limit, turn, 0) && ChildOk(s, limit, turn, 1) && ChildOk(s, limit, turn, 2)
    && s.sems[WAITER] == Semaphore(if turn.Guarded() then 0 else 1, [])
    && s.out == School(turn.Characters())
  }

  // ---- Remaining work --------------------------------------------------------------

  ghost function ChildWork(p: Proc, limit: nat): int {
    10 * (2 * Rounds(limit) - p.idx) - 2 * p.pc - if p.blocked then 1 else 0
  }

  ghost function Work(s: State, limit: nat): int
    requires |s.procs| == 3
  {
    ChildWork(s.procs[0], limit) + ChildWork(s.procs[1], limit) + ChildWork(s.procs[2], limit)
    + (3 - s.forked) + (if s.started then 0 else 1) + (3 - s.joined)
  }

  // ---- Every step keeps the turn ---------------------------------------------------

  lemma SchoolGrows(round: nat, phase: nat)
    requires phase < 4
    ensures School(4 * round + phase + 1) == School(4 * round + phase) + ["><>_"[phase]]
  {
    assert (4 * round + phase) % 4 == phase;
  }

  ghost function Blocked(s: State, i: nat): State
    requires Shape(s) && i < 3
  {
    s.(procs := s.procs[i := s.procs[i].(blocked := true)], sems := s.sems[i := Semaphore(0, [i])])
  }

  lemma FindsNoToken(s: State, i: nat)
    requires Shape(s) && i < 3 && Body(i)[s.procs[i].pc] == Acquire(i) && s.sems[i] == Semaphore(0, [])
    ensures ChildStep(s, i) == Blocked(s, i)
  {
    hide Body;
    assert [] + [i] == [i];
  }

  /** A child that does not have the turn can only block. */
  lemma WithoutTurnBlocks(s: State, limit: nat, turn: Turn, i: nat)
    requires Inv(s, limit, turn) && i < 3 && Enabled(s, limit, Child(i))
    requires !s.started || i != turn.Owner()
    ensures Inv(ChildStep(s, i), limit, turn) && Work(ChildStep(s, i), limit) < Work(s, limit)
  {
    hide School;
    hide ChildStep;
    assert Body(i)[s.procs[i].pc] == Acquire(i);
    FindsNoToken(s, i);
    var t := Blocked(s, i);
    assert ChildOk(t, limit, turn, 0);
    assert ChildOk(t, limit, turn, 1);
    assert ChildOk(t, limit, turn, 2);
  }

  /** What the owner does after `o` operations of its turn. */
  ghost function OwnerOp(turn: Turn): Op {
    if turn.o == 0 then Acquire(turn.Owner())
    else if turn.o + 1 == turn.Length() then Release(turn.Next().Owner())
    else if turn.phase == 1 then Print('<')
    else if turn.o == 1 then Acquire(WAITER)
    else if turn.o == 2 then Print(if turn.phase == 3 then '_' else '>')
    else Release(WAITER)
  }

  lemma OwnerFollowsBody(s: State, limit: nat, turn: Turn)
    requires Inv(s, limit, turn) && turn.round < Rounds(limit)
    ensures Body(turn.Owner())[s.procs[turn.Owner()].pc] == OwnerOp(turn)
    ensures turn.o + 1 < turn.Length() ==>
      var p := s.procs[turn.Owner()]; Advance(p, turn.Owner()) == Proc(p.idx, p.pc + 1, false)
  {
  }

  /** The state after the owner's operation `o`, when that is not its last. */
  ghost function Advanced(s: State, turn: Turn): State
    requires Shape(s) && turn.phase < 4
  {
    var i := turn.Owner();
    s.(
      procs := s.procs[i := Proc(s.procs[i].idx, s.procs[i].pc + 1, false)],
      sems := match OwnerOp(turn) {
        case Acquire(k) => if k < 4 then s.sems[k := Semaphore(0, [])] else s.sems
        case Release(k) => if k < 4 then s.sems[k := Semaphore(1, [])] else s.sems
        case Print(_) => s.sems
      },
      out := if OwnerOp(turn).Print? then s.out + [OwnerOp(turn).c] else s.out)
  }

  lemma AdvancedKeepsInv(s: State, limit: nat, turn: Turn)
    requires Inv(s, limit, turn) && s.started && turn.round < Rounds(limit) && turn.o + 1 < turn.Length()
    ensures Inv(Advanced(s, turn), limit, turn.(o := turn.o + 1))
    ensures Work(Advanced(s, turn), limit) < Work(s, limit)
  {
    hide School;
    hide Rounds;
    SchoolGrows(turn.round, turn.phase);
    AdvancedChild(s, limit, turn, 0);
    AdvancedChild(s, limit, turn, 1);
    AdvancedChild(s, limit, turn, 2);
  }

  lemma AdvancedChild(s: State, limit: nat, turn: Turn, id: nat)
    requires Inv(s, limit, turn) && s.started && turn.round < Rounds(limit) && turn.o + 1 < turn.Length() && id < 3
    ensures Shape(Advanced(s, turn)) && ChildOk(Advanced(s, turn), limit, turn.(o := turn.o + 1), id)
  {
    hide School;
    hide Rounds;
  }

  /** The owner of the turn finds its token and goes on alone. */
  lemma OwnerMoves(s: State, limit: nat, turn: Turn)
    requires Inv(s, limit, turn) && s.started && turn.round < Rounds(limit) && turn.o + 1 < turn.Length()
    ensures var i := turn.Owner();
      Inv(ChildStep(s, i), limit, turn.(o := turn.o + 1)) && Work(ChildStep(s, i), limit) < Work(s, limit)
  {
    OwnerAdvances(s, limit, turn);
    hide Inv;
    hide Work;
    hide Advanced;
    hide ChildStep;
    AdvancedKeepsInv(s, limit, turn);
  }

  lemma OwnerAdvances(s: State, limit: nat, turn: Turn)
    requires Inv(s, limit, turn) && s.started && turn.round < Rounds(limit) && turn.o + 1 < turn.Length()
    ensures ChildStep(s, turn.Owner()) == Advanced(s, turn)
  {
    hide School;
    OwnerFollowsBody(s, limit, turn);
    hide Body;
    hide Rounds;
  }

  /** The owner's last operation hands the turn to the next child, blocked or not. */
  ghost function Passed(s: State, turn: Turn): State
    requires Shape(s) && turn.phase < 4
  {
    var i, j := turn.Owner(), turn.Next().Owner();
    var procs := s.procs[i := Proc(turn.Next().Idx(i), turn.Next().Pc(i), false)];
    if s.procs[j].blocked then
      s.(procs := procs[j := Proc(s.procs[j].idx, s.procs[j].pc + 1, false)], sems := s.sems[j := Semaphore(0, [])])
    else
      s.(procs := procs, sems := s.sems[j := Semaphore(1, [])])
  }

  ghost function AfterPass(s: State, turn: Turn): Turn
    requires Shape(s) && turn.phase < 4
  {
    if s.procs[turn.Next().Owner()].blocked then turn.Next().(o := 1) else turn.Next()
  }

  lemma PassedKeepsInv(s: State, limit: nat, turn: Turn)
    requires Inv(s, limit, turn) && s.started && turn.round < Rounds(limit) && turn.o + 1 == turn.Length()
    ensures Inv(Passed(s, turn), limit, AfterPass(s, turn))
  {
    hide School;
    var s', turn' := Passed(s, turn), AfterPass(s, turn);
    assert turn'.Characters() == turn.Characters();
    PassedChild(s, limit, turn, 0);
    PassedChild(s, limit, turn, 1);
    PassedChild(s, limit, turn, 2);
    hide ChildOk;
  }

  lemma PassedChild(s: State, limit: nat, turn: Turn, id: nat)
    requires Inv(s, limit, turn) && s.started && turn.round < Rounds(limit) && turn.o + 1 == turn.Length() && id < 3
    ensures Shape(Passed(s, turn)) && ChildOk(Passed(s, turn), limit, AfterPass(s, turn), id)
  {
    hide School;
  }

  lemma PassedWorks(s: State, limit: nat, turn: Turn)
    requires Inv(s, limit, turn) && s.started && turn.round < Rounds(limit) && turn.o + 1 == turn.Length()
    ensures Work(Passed(s, turn), limit) < Work(s, limit)
  {
    hide School;
  }

  /** Where the owner stands after its turn, and what the next child looks like. */
  lemma PassingProcs(s: State, limit: nat, turn: Turn)
    requires Inv(s, limit, turn) && s.started && turn.round < Rounds(limit) && turn.o + 1 == turn.Length()
    ensures var i, j := turn.Owner(), turn.Next().Owner();
      && i != j && i < 3 && j < 3
      && Advance(s.procs[i], i) == Proc(turn.Next().Idx(i), turn.Next().Pc(i), false)
      && s.sems[j] == Semaphore(0, if s.procs[j].blocked then [j] else [])
      && (s.procs[j].blocked ==> Advance(s.procs[j], j) == Proc(s.procs[j].idx, s.procs[j].pc + 1, false))
  {
    hide School;
  }

  lemma OwnerPasses(s: State, limit: nat, turn: Turn)
    requires Inv(s, limit, turn) && s.started && turn.round < Rounds(limit) && turn.o + 1 == turn.Length()
    ensures ChildStep(s, turn.Owner()) == Passed(s, turn)
  {
    OwnerFollowsBody(s, limit, turn);
    PassingProcs(s, limit, turn);
    var j := turn.Next().Owner();
    assert [j][1..] == [];
    assert OwnerOp(turn) == Release(j);
    hide Inv;
    hide Body;
    hide Advance;
    hide OwnerOp;
  }

  lemma ChildKeepsInv(s: State, limit: nat, turn: Turn, i: nat) returns (turn': Turn)
    requires Inv(s, limit, turn) && i < 3 && Enabled(s, limit, Child(i))
    ensures Inv(ChildStep(s, i), limit, turn') && Work(ChildStep(s, i), limit) < Work(s, limit)
  {
    if !s.started || i != turn.Owner() {
      WithoutTurnBlocks(s, limit, turn, i);
      turn' := turn;
    } else if turn.o + 1 < turn.Length() {
      OwnerMoves(s, limit, turn);
      turn' := turn.(o := turn.o + 1);
    } else {
      OwnerPasses(s, limit, turn);
      PassedKeepsInv(s, limit, turn);
      PassedWorks(s, limit, turn);
      turn' := AfterPass(s, turn);
    }
  }

  lemma ParentKeepsInv(s: State, limit: nat, turn: Turn) returns (turn': Turn)
    requires Inv(s, limit, turn) && Enabled(s, limit, Parent)
    ensures Inv(Step(s, limit, Parent), limit, turn')
    ensures Work(Step(s, limit, Parent), limit) < Work(s, limit)
  {
    turn' := turn;
    if s.forked == 3 && !s.started && s.procs[0].blocked {
      assert s.sems[0].waitQueue[1..] == [];
      turn' := turn.(o := 1);
    }
  }

  // ---- Whole runs ------------------------------------------------------------------

  /** A schedule is any choice of enabled actors. */
  ghost predicate Possible(s: State, limit: nat, schedule: seq<Actor>)
    decreases |schedule|
  {
    schedule == [] || (Enabled(s, limit, schedule[0]) && Possible(Step(s, limit, schedule[0]), limit, schedule[1..]))
  }

  ghost function Run(s: State, limit: nat, schedule: seq<Actor>): State
    requires Possible(s, limit, schedule)
    decreases |schedule|
  {
    if schedule == [] then s else Run(Step(s, limit, schedule[0]), limit, schedule[1..])
  }

  lemma {:induction false} RunKeepsInv(s: State, limit: nat, turn: Turn, schedule: seq<Actor>) returns (turn': Turn)
    requires Inv(s, limit, turn) && Possible(s, limit, schedule)
    ensures Inv(Run(s, limit, schedule), limit, turn')
    ensures Work(Run(s, limit, schedule), limit) + |schedule| <= Work(s, limit)
    decreases |schedule|
  {
    turn' := turn;
    if schedule != [] {
      if schedule[0].Parent? {
        turn' := ParentKeepsInv(s, limit, turn);
      } else {
        turn' := ChildKeepsInv(s, limit, turn, schedule[0].id);
      }
      turn' := RunKeepsInv(Step(s, limit, schedule[0]), limit, turn', schedule[1..]);
    }
  }

  /** Somebody can move until every child has left its loop and been waited for. */
  lemma NoDeadlock(s: State, limit: nat, turn: Turn)
    requires Inv(s, limit, turn)
    requires forall a :: !Enabled(s, limit, a)
    ensures s.joined == 3 && s.out == School(4 * Rounds(limit))
  {
    assert !Enabled(s, limit, Parent) && !Enabled(s, limit, Child(turn.Owner()));
  }

  /** Under every schedule the output is a prefix of "><>_" over and over; every
    * schedule ends; and it ends with one whole fish per round and all children
    * waited for. */
  lemma FishSwim(limit: nat, schedule: seq<Actor>)
    requires Possible(INIT, limit, schedule)
    ensures var s := Run(INIT, limit, schedule);
      && (exists n: nat :: n <= 4 * Rounds(limit) && s.out == School(n))
      && |schedule| <= 60 * Rounds(limit) + 7
      && ((forall a :: !Enabled(s, limit, a)) ==> s.joined == 3 && s.out == School(4 * Rounds(limit)))
  {
    hide Inv;
    hide Work;
    hide School;
    hide Enabled;
    hide Run;
    hide Rounds;
    StartHolds(limit);
    var turn := RunKeepsInv(INIT, limit, Turn(0, 0, 0), schedule);
    var s := Run(INIT, limit, schedule);
    InvBounds(s, limit, turn);
    if forall a :: !Enabled(s, limit, a) {
      NoDeadlock(s, limit, turn);
    }
  }

  lemma StartHolds(limit: nat)
    ensures Inv(INIT, limit, Turn(0, 0, 0)) && Work(INIT, limit) == 60 * Rounds(limit) + 7
  {
  }

  lemma InvBounds(s: State, limit: nat, turn: Turn)
    requires Inv(s, limit, turn)
    ensures Shape(s) && Work(s, limit) >= 0
    ensures turn.Characters() <= 4 * Rounds(limit) && s.out == School(turn.Characters())
  {
    hide School;
  }
}
