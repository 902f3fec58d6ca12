/** What every interleaving of scheduler operations keeps: one processor per task, and a bound on waiting. */
module Fairness {
  import opened Numbers
  import opened Scheduler

  // ---------------------------------------------------------------------------
  // The invariant
  // ---------------------------------------------------------------------------

  /** A live slot lies below the slot count, holds a legal priority, and CPU 0 is named only by the task it runs. */
  predicate SlotOk(s: State, i: nat)
    requires Shaped(s) && i < MAX_TASKS
  {
    var t := s.tasks[i];
    -20 <= t.nice <= 19 && t.age <= MAX_AGE
    && (t.used ==> i < s.count && 1 <= t.priority <= 3 && 1 <= t.ticks <= 3 && -1 <= t.cpu <= 1)
    && (t.used && t.cpu == 0 ==> i == s.current)
  }

  predicate Inv(s: State) {
    Shaped(s) && (forall i :: 0 <= i < MAX_TASKS ==> SlotOk(s, i))
    && s.tasks[s.current].used && s.tasks[s.current].cpu == 0 && s.tasks[s.current].age == 0
    && (s.currentAp >= 0 ==> s.tasks[s.currentAp].used && s.tasks[s.currentAp].cpu == 1)
  }

  lemma BootInv()
    ensures Inv(Boot())
  {}

  /** No task is current on both processors; each current task carries its processor's number, and no other live one
      carries 0. */
  lemma Exclusion(s: State)
    requires Inv(s)
    ensures s.current != s.currentAp && s.tasks[s.current].cpu == 0
    ensures s.currentAp >= 0 ==> s.tasks[s.currentAp].cpu == 1
    ensures forall i :: 0 <= i < MAX_TASKS && i != s.current && s.tasks[i].used ==> s.tasks[i].cpu != 0
  {
    forall i | 0 <= i < MAX_TASKS && i != s.current && s.tasks[i].used ensures s.tasks[i].cpu != 0 {
      assert SlotOk(s, i);
    }
  }

  /** Replacing one slot. */
  lemma PutInv(s: State, i: nat, t: Task)
    requires Inv(s) && i < MAX_TASKS && SlotOk(Put(s, i, t), i)
    requires i == s.current ==> t.used && t.cpu == 0 && t.age == 0
    requires i == s.currentAp ==> t.used && t.cpu == 1
    ensures Inv(Put(s, i, t))
  {
    var r := Put(s, i, t);
    forall j | 0 <= j < MAX_TASKS ensures SlotOk(r, j) { assert SlotOk(s, j); }
  }

  lemma CountedInv(s: State, tid: int)
    requires Inv(s) && tid < MAX_TASKS
    ensures Inv(Counted(s, tid))
  {
    if tid >= 0 {
      assert SlotOk(s, tid);
      var t := s.tasks[tid];
      if t.used && t.status == Running {
        PutInv(s, tid, t.(ticks := if t.ticks > 1 then t.ticks - 1 else t.priority));
      }
    }
  }

  lemma AgedInv(s: State, best: int)
    requires Inv(s)
    ensures Inv(Aged(s, best))
  {
    var r := Aged(s, best);
    forall j | 0 <= j < MAX_TASKS ensures SlotOk(r, j) { assert SlotOk(s, j); }
  }

  /** The claim: the old task goes back to the pool, the new one is CPU 0's. */
  lemma SwitchedInv(s: State, next: nat)
    requires Inv(s) && next < MAX_TASKS && Waits(s, next)
    ensures Inv(Switched(s, next))
  {
    var r := Switched(s, next);
    forall j | 0 <= j < MAX_TASKS ensures SlotOk(r, j) { assert SlotOk(s, j); }
  }

  lemma SelectedInv(s: State)
    requires Inv(s)
    ensures Inv(Selected(s))
  {
    var best := BestOf(s, MAX_TASKS);
    AgedInv(s, best);
    if best >= 0 { SwitchedInv(Aged(s, best), best); }
  }

  lemma TickInv(s: State)
    requires Inv(s)
    ensures Inv(Tick(s))
  {
    CountedInv(s, s.current);
    SelectedInv(Counted(s, s.current));
  }

  lemma ApClaimInv(s: State, next: nat)
    requires Inv(s) && next < MAX_TASKS && next != s.currentAp && s.tasks[next].used && s.tasks[next].cpu in {-1, 1}
    ensures var t := ApSetCpu(s, -1);
            Inv(Put(t, next, t.tasks[next].(cpu := 1)).(currentAp := next))
  {
    var t := ApSetCpu(s, -1);
    var r := Put(t, next, t.tasks[next].(cpu := 1)).(currentAp := next);
    forall j | 0 <= j < MAX_TASKS ensures SlotOk(r, j) { assert SlotOk(s, j); }
  }

  lemma ApSelectedInv(s: State)
    requires Inv(s)
    ensures Inv(ApSelected(s))
  {
    var next := ApNext(s);
    if next < 0 || next == s.currentAp {
      if s.currentAp >= 0 { assert ApSetCpu(s, 1) == s; }
    } else {
      ApClaimInv(s, next);
    }
  }

  lemma ApTickInv(s: State)
    requires Inv(s)
    ensures Inv(ApTick(s))
  {
    CountedInv(s, s.currentAp);
    ApSelectedInv(Counted(s, s.currentAp));
  }

  lemma ExtendInv(s: State, id: nat)
    requires Inv(s)
    ensures Inv(Extend(s, id)) && id < Extend(s, id).count
  {
    var r := Extend(s, id);
    forall j | 0 <= j < MAX_TASKS ensures SlotOk(r, j) { assert SlotOk(s, j); }
  }

  lemma CreatedInv(s: State, priority: nat, cpu: int, user: bool)
    requires Inv(s) && 1 <= priority <= 3 && cpu in {-1, 1}
    ensures Inv(Created(s, priority, cpu, user))
  {
    var id := FreeSlot(s, 1);
    if id >= 0 {
      assert SlotOk(s, id);
      ExtendInv(s, id);
      PutInv(Extend(s, id), id,
          Task(true, Running, 0, priority, priority, cpu, user, s.tasks[id].nice, s.tasks[id].age));
    }
  }

  lemma ThreadedInv(s: State, parent: int)
    requires Inv(s)
    ensures Inv(Threaded(s, parent))
  {
    var id := FreeSlot(s, 1);
    if id >= 0 { ExtendInv(s, id); }
    CreatedInv(s, 2, -1, true);
  }

  lemma ForkedInv(s: State)
    requires Inv(s)
    ensures Inv(Forked(s))
  {
    var id := FreeSlot(s, 1);
    if id >= 0 {
      assert SlotOk(s, s.current);
      ExtendInv(s, id);
      PutInv(Extend(s, id), id, s.tasks[s.current].(used := true, status := Running, cpu := -1, wake := 0));
    }
  }

  lemma WokenInv(s: State, now: nat)
    requires Inv(s)
    ensures Inv(Apply(s, OpWake(now)))
  {
    var r := Apply(s, OpWake(now));
    forall j | 0 <= j < MAX_TASKS ensures SlotOk(r, j) { assert SlotOk(s, j); }
  }

  /** Operations that rewrite one live slot. */
  lemma SlotOpInv(s: State, op: Op)
    requires Inv(s) && (op.OpBlock? || op.OpUnblock? || op.OpSleep? || op.OpYield? || op.OpSetNice?
      || op.OpSetPriority?)
    ensures Inv(Apply(s, op))
  {
    var c := s.current;
    assert SlotOk(s, c);
    match op
    case OpBlock => PutInv(s, c, s.tasks[c].(status := Blocked));
    case OpUnblock(id) => if Live(s, id) { assert SlotOk(s, id); PutInv(s, id, s.tasks[id].(status := Running)); }
    case OpSleep(ms, now) => PutInv(s, c, Apply(s, op).tasks[c]);
    case OpYield => PutInv(s, c, s.tasks[c].(ticks := 1));
    case OpSetNice(id, v) => if Live(s, id) { assert SlotOk(s, id); PutInv(s, id, s.tasks[id].(nice := ClampNice(v))); }
    case OpSetPriority(id, v) =>
      if Live(s, id) && 1 <= v <= 3 { assert SlotOk(s, id); PutInv(s, id, s.tasks[id].(priority := v, ticks := v)); }
  }

  lemma ApplyInv(s: State, op: Op)
    requires Inv(s)
    ensures Inv(Apply(s, op))
  {
    match op
    case OpTick => TickInv(s);
    case OpApTick => ApTickInv(s);
    case OpWake(now) => WokenInv(s, now);
    case OpCreate => CreatedInv(s, 1, if s.hasAp then 1 else -1, false);
    case OpCreateUser => CreatedInv(s, 2, -1, true);
    case OpCreateThread(p) => ThreadedInv(s, p);
    case OpFork => ForkedInv(s);
    case OpHasAp(v) =>
      var r := s.(hasAp := v);
      forall j | 0 <= j < MAX_TASKS ensures SlotOk(r, j) { assert SlotOk(s, j); }
    case _ => SlotOpInv(s, op);
  }

  /** Mutual exclusion over every run: whatever is interleaved, no task is current on both processors. */
  lemma {:induction false} RunInv(s: State, ops: seq<Op>)
    requires Inv(s)
    ensures Inv(Run(s, ops)) && Run(s, ops).current != Run(s, ops).currentAp
    decreases |ops|
  {
    if |ops| > 0 {
      ApplyInv(s, ops[0]);
      RunInv(Apply(s, ops[0]), ops[1..]);
    } else {
      Exclusion(s);
    }
  }

  // ---------------------------------------------------------------------------
  // Bounded waiting
  // ---------------------------------------------------------------------------

  /** The task the tick chooses; -1 when it does not select or nothing is eligible. */
  function Choice(s: State): (b: int)
    requires Shaped(s)
  {
    if Selects(s) then BestOf(Counted(s, s.current), MAX_TASKS) else -1
  }

  /** At every selection in the run the task t is eligible, and is not chosen. */
  predicate PassedOver(s: State, ops: seq<Op>, t: nat)
    requires Shaped(s) && t < MAX_TASKS
    decreases |ops|
  {
    |ops| == 0
    || ((ops[0] == OpTick && Selects(s) ==> Eligible(s, t) && Choice(s) != t)
        && PassedOver(Apply(s, ops[0]), ops[1..], t))
  }

  /** The number of selections in the run. */
  function Selections(s: State, ops: seq<Op>): nat
    requires Shaped(s)
    decreases |ops|
  {
    if |ops| == 0 then 0
    else (if ops[0] == OpTick && Selects(s) then 1 else 0) + Selections(Apply(s, ops[0]), ops[1..])
  }

  const GAP: nat := 384
  const BOUND: nat := GAP + MAX_TASKS - 1

  predicate Trails(s: State, r: nat, t: nat, n: nat)
    requires Shaped(s) && t < MAX_TASKS
  {
    r < MAX_TASKS && r != t && s.tasks[r].used && s.tasks[r].age <= n && s.tasks[r].age + GAP <= s.tasks[t].age
  }

  /** After n passes: t has aged n times, and `won` are the rivals that have won since t reached age 384. */
  predicate Waited(s: State, t: nat, n: nat, won: set<nat>)
    requires Shaped(s) && t < MAX_TASKS
  {
    n <= s.tasks[t].age && n <= GAP + |won| && s.tasks[t].used && forall r :: r in won ==> Trails(s, r, t, n)
  }

  /** The first n slot numbers. */
  function Slots(n: nat): (r: set<nat>)
    ensures |r| == n && forall i: nat :: i in r <==> i < n
  {
    if n == 0 then {} else Slots(n - 1) + {n - 1}
  }

  /** Every other task wins at most once. */
  lemma WonBound(s: State, t: nat, n: nat, won: set<nat>)
    requires Shaped(s) && t < MAX_TASKS && Waited(s, t, n, won)
    ensures |won| <= MAX_TASKS - 1 && n <= BOUND
  {
    forall r | r in won ensures r in Slots(MAX_TASKS) - {t} { assert Trails(s, r, t, n); }
    SubsetCard(won, Slots(MAX_TASKS) - {t});
  }

  /** Base scores differ by at most 47, so a rival 384 younger cannot win. */
  lemma ScoreGap(w: Task, t: Task)
    requires 1 <= w.priority <= 3 && 1 <= t.priority <= 3 && -20 <= w.nice <= 19 && -20 <= t.nice <= 19
    requires w.age + GAP <= t.age
    ensures Score(w) < Score(t)
  {}

  /** What a selection does to ages. */
  lemma SelectedAges(s: State, i: nat)
    requires Shaped(s) && i < MAX_TASKS && i != BestOf(s, MAX_TASKS)
    ensures Selected(s).tasks[i].age == (if Waits(s, i) then Older(s.tasks[i]).age else s.tasks[i].age)
    ensures Selected(s).tasks[i].used == s.tasks[i].used
  {}

  lemma WinnerAge(s: State)
    requires Shaped(s) && BestOf(s, MAX_TASKS) >= 0
    ensures var b := BestOf(s, MAX_TASKS); Selected(s).tasks[b].age == 0 && Selected(s).tasks[b].used
  {}

  lemma CountedSame(s: State, i: nat)
    requires Shaped(s) && i < MAX_TASKS
    ensures var r := Counted(s, s.current);
            r.tasks[i].age == s.tasks[i].age && r.tasks[i].used == s.tasks[i].used && Eligible(r, i) == Eligible(s, i)
  {}

  lemma CountedWaited(s: State, t: nat, n: nat, won: set<nat>)
    requires Shaped(s) && t < MAX_TASKS && Waited(s, t, n, won)
    ensures Waited(Counted(s, s.current), t, n, won)
  {
    CountedSame(s, t);
    forall r | r in won ensures Trails(Counted(s, s.current), r, t, n) {
      assert Trails(s, r, t, n);
      CountedSame(s, r);
    }
  }

  /** The winner scores at least as much as t, so it is none of those that already won. */
  lemma WinnerIsNew(s: State, t: nat, n: nat, won: set<nat>)
    requires Inv(s) && t < MAX_TASKS && Eligible(s, t) && Waited(s, t, n, won)
    ensures var b := BestOf(s, MAX_TASKS); b >= 0 && b !in won
  {
    forall i | 0 <= i < MAX_TASKS && Eligible(s, i) ensures Score(s.tasks[i]) > -9999 { assert SlotOk(s, i); }
    BestWins(s, MAX_TASKS);
    var b := BestOf(s, MAX_TASKS);
    if b in won {
      assert Trails(s, b, t, n) && Beats(s, b, t) && SlotOk(s, b) && SlotOk(s, t);
      ScoreGap(s.tasks[b], s.tasks[t]);
      assert false;
    }
  }

  lemma TrailsStep(s: State, r: nat, t: nat, n: nat)
    requires Inv(s) && t < MAX_TASKS && Eligible(s, t) && n <= BOUND && Trails(s, r, t, n)
    requires r != BestOf(s, MAX_TASKS) && t != BestOf(s, MAX_TASKS)
    ensures Trails(Selected(s), r, t, n + 1)
  {
    SelectedAges(s, r);
    SelectedAges(s, t);
    assert SlotOk(s, t);
  }

  /** One pass costs t's age a tick and, once t is old, uses up a rival. */
  lemma PassSelected(s: State, t: nat, n: nat, won: set<nat>) returns (won': set<nat>)
    requires Inv(s) && t < MAX_TASKS && Eligible(s, t) && BestOf(s, MAX_TASKS) != t && Waited(s, t, n, won)
    ensures Waited(Selected(s), t, n + 1, won')
  {
    WonBound(s, t, n, won);
    WinnerIsNew(s, t, n, won);
    var b := BestOf(s, MAX_TASKS);
    SelectedAges(s, t);
    WinnerAge(s);
    assert SlotOk(s, t);
    var r := Selected(s);
    forall x | x in won ensures Trails(r, x, t, n + 1) { assert Trails(s, x, t, n); TrailsStep(s, x, t, n); }
    if s.tasks[t].age >= GAP {
      won' := won + {b};
    } else {
      won' := won;
    }
  }

  lemma Pass(s: State, t: nat, n: nat, won: set<nat>) returns (won': set<nat>)
    requires Inv(s) && t < MAX_TASKS && Selects(s) && Eligible(s, t) && Choice(s) != t && Waited(s, t, n, won)
    ensures Waited(Tick(s), t, n + 1, won')
  {
    CountedInv(s, s.current);
    CountedSame(s, t);
    CountedWaited(s, t, n, won);
    won' := PassSelected(Counted(s, s.current), t, n, won);
  }

  lemma ApAges(s: State, i: nat)
    requires Shaped(s) && i < MAX_TASKS
    ensures ApTick(s).tasks[i].used == s.tasks[i].used && ApTick(s).tasks[i].age == s.tasks[i].age
  {}

  /** A task slot is filled only while it is free. */
  lemma CreateAges(s: State, op: Op, i: nat)
    requires Shaped(s) && i < MAX_TASKS && s.tasks[i].used
      && (op.OpCreate? || op.OpCreateUser? || op.OpCreateThread? || op.OpFork?)
    ensures Apply(s, op).tasks[i] == s.tasks[i]
  {}

  /** Nothing but a selection changes the age of a live task. */
  lemma AgesKept(s: State, op: Op, i: nat)
    requires Shaped(s) && i < MAX_TASKS && s.tasks[i].used && !(op == OpTick && Selects(s))
    ensures Apply(s, op).tasks[i].used && Apply(s, op).tasks[i].age == s.tasks[i].age
  {
    match op
    case OpApTick => ApAges(s, i);
    case OpCreate => CreateAges(s, op, i);
    case OpCreateUser => CreateAges(s, op, i);
    case OpCreateThread(_) => CreateAges(s, op, i);
    case OpFork => CreateAges(s, op, i);
    case _ =>
  }

  lemma OtherStep(s: State, op: Op, t: nat, n: nat, won: set<nat>)
    requires Shaped(s) && t < MAX_TASKS && !(op == OpTick && Selects(s)) && Waited(s, t, n, won)
    ensures Waited(Apply(s, op), t, n, won)
  {
    AgesKept(s, op, t);
    var r := Apply(s, op);
    forall x | x in won ensures Trails(r, x, t, n) {
      assert Trails(s, x, t, n);
      AgesKept(s, op, x);
    }
  }

  lemma {:induction false} WaitsOn(s: State, ops: seq<Op>, t: nat, n: nat, won: set<nat>)
    requires Inv(s) && t < MAX_TASKS && PassedOver(s, ops, t) && Waited(s, t, n, won)
    ensures n + Selections(s, ops) <= BOUND
    decreases |ops|
  {
    if |ops| == 0 {
      WonBound(s, t, n, won);
    } else {
      ApplyInv(s, ops[0]);
      if ops[0] == OpTick && Selects(s) {
        var won' := Pass(s, t, n, won);
        WaitsOn(Apply(s, ops[0]), ops[1..], t, n + 1, won');
      } else {
        OtherStep(s, ops[0], t, n, won);
        WaitsOn(Apply(s, ops[0]), ops[1..], t, n, won);
      }
    }
  }

  /** Bounded waiting. From any reachable state, a task that is eligible at every selection
      is passed over at most 384 + 31 times in a row, whatever else is interleaved. */
  lemma BoundedWaiting(before: seq<Op>, ops: seq<Op>, t: nat)
    requires t < MAX_TASKS
    requires PassedOver(Run(Boot(), before), ops, t)
    ensures Selections(Run(Boot(), before), ops) <= 415
  {
    BootInv();
    RunInv(Boot(), before);
    var s := Run(Boot(), before);
    if s.tasks[t].used {
      WaitsOn(s, ops, t, 0, {});
    } else {
      NotYet(s, ops, t);
    }
  }

  /** Before the task exists no selection can count it as eligible. */
  lemma {:induction false} NotYet(s: State, ops: seq<Op>, t: nat)
    requires Inv(s) && t < MAX_TASKS && PassedOver(s, ops, t) && !s.tasks[t].used
    ensures Selections(s, ops) <= BOUND
    decreases |ops|
  {
    if |ops| > 0 {
      ApplyInv(s, ops[0]);
      var r := Apply(s, ops[0]);
      if r.tasks[t].used { WaitsOn(r, ops[1..], t, 0, {}); } else { NotYet(r, ops[1..], t); }
    }
  }

  /** A waiting task always makes the next expired tick a selection. */
  lemma WaiterSelects(s: State, t: nat)
    requires Inv(s) && t < MAX_TASKS && Waits(s, t) && !Keeps(s, s.current)
    ensures Selects(s)
  {
    assert SlotOk(s, t) && SlotOk(s, s.current);
  }

  // ---------------------------------------------------------------------------
  // The bound in timer ticks
  // ---------------------------------------------------------------------------

  function TicksIn(ops: seq<Op>): nat {
    if |ops| == 0 then 0 else (if ops[0] == OpTick then 1 else 0) + TicksIn(ops[1..])
  }

  /** At every timer tick t is eligible and not chosen. */
  predicate WaitsThrough(s: State, ops: seq<Op>, t: nat)
    requires Shaped(s) && t < MAX_TASKS
    decreases |ops|
  {
    |ops| == 0
    || ((ops[0] == OpTick ==> Eligible(s, t) && Choice(s) != t) && WaitsThrough(Apply(s, ops[0]), ops[1..], t))
  }

  /** Setting the priority of the running task gives it a new time slice. */
  predicate Renews(s: State, op: Op) { op.OpSetPriority? && op.id == s.current }

  /** How often that happens in the run. */
  function Renewed(s: State, ops: seq<Op>): nat
    requires Shaped(s)
    decreases |ops|
  {
    if |ops| == 0 then 0 else (if Renews(s, ops[0]) then 1 else 0) + Renewed(Apply(s, ops[0]), ops[1..])
  }

  lemma {:induction false} WaitsPassed(s: State, ops: seq<Op>, t: nat)
    requires Shaped(s) && t < MAX_TASKS && WaitsThrough(s, ops, t)
    ensures PassedOver(s, ops, t)
    decreases |ops|
  {
    if |ops| > 0 { WaitsPassed(Apply(s, ops[0]), ops[1..], t); }
  }

  /** Only a tick that selects changes the running task, and only a renewal lengthens its slice. */
  lemma SliceKept(s: State, op: Op)
    requires Inv(s) && op != OpTick
    ensures Apply(s, op).current == s.current
    ensures !Renews(s, op) ==> Apply(s, op).tasks[s.current].ticks <= s.tasks[s.current].ticks
  {
    assert SlotOk(s, s.current);
    Exclusion(s);
  }

  /** With a task waiting, a tick that does not select uses up a tick of the slice. */
  lemma SliceUsed(s: State, t: nat)
    requires Inv(s) && t < MAX_TASKS && Eligible(s, t) && !Selects(s)
    ensures Tick(s).current == s.current && Tick(s).tasks[s.current].ticks + 1 == s.tasks[s.current].ticks
  {
    if !Keeps(s, s.current) { WaiterSelects(s, t); }
    assert SlotOk(s, s.current) && SlotOk(s, t);
  }

  lemma {:induction false} TicksBySelections(s: State, ops: seq<Op>, t: nat)
    requires Inv(s) && t < MAX_TASKS && WaitsThrough(s, ops, t)
    ensures TicksIn(ops) < s.tasks[s.current].ticks + 3 * Selections(s, ops) + 2 * Renewed(s, ops)
    decreases |ops|
  {
    assert SlotOk(s, s.current);
    if |ops| > 0 {
      var r := Apply(s, ops[0]);
      ApplyInv(s, ops[0]);
      TicksBySelections(r, ops[1..], t);
      assert SlotOk(r, r.current);
      if ops[0] != OpTick { SliceKept(s, ops[0]); } else if !Selects(s) { SliceUsed(s, t); }
    }
  }

  /** From any reachable state, a task that could run at every timer tick waits for fewer than 3 * 416 of them, and two
      more for each time the priority of the running task is set meanwhile. */
  lemma BoundedTicks(before: seq<Op>, ops: seq<Op>, t: nat)
    requires t < MAX_TASKS && WaitsThrough(Run(Boot(), before), ops, t)
    ensures TicksIn(ops) < 3 * 416 + 2 * Renewed(Run(Boot(), before), ops)
  {
    var s := Run(Boot(), before);
    BootInv();
    RunInv(Boot(), before);
    assert SlotOk(s, s.current);
    WaitsPassed(s, ops, t);
    BoundedWaiting(before, ops, t);
    TicksBySelections(s, ops, t);
  }

  /** n times: the running task is given priority 3, then the timer ticks. */
  function Renewals(c: nat, n: nat): seq<Op> {
    if n == 0 then [] else [OpSetPriority(c, 3), OpTick] + Renewals(c, n - 1)
  }

  /** A running task whose priority is set before every tick is never interrupted, whoever waits. */
  lemma {:induction false} Starvation(s: State, n: nat)
    requires Inv(s) && s.tasks[s.current].status == Running && s.count >= 2
    ensures var ops := Renewals(s.current, n);
            TicksIn(ops) == Renewed(s, ops) == n && Selections(s, ops) == 0 && Run(s, ops).current == s.current
    decreases n
  {
    if n > 0 {
      var op, c := OpSetPriority(s.current, 3), s.current;
      var r := Apply(s, op);
      var q := Apply(r, OpTick);
      ApplyInv(s, op);
      ApplyInv(r, OpTick);
      Starvation(q, n - 1);
      var ops, rest := Renewals(c, n), Renewals(c, n - 1);
      assert ops[0] == op && ops[1..][0] == OpTick && ops[1..][1..] == rest;
    }
  }
}
