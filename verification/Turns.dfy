/** Whose turn it is: what the choice depends on, how long a turn lasts, and when a task can be chosen again after
    creation, blocking and sleep. */
module Turns {
  import opened Scheduler
  import opened Fairness

  // ---------------------------------------------------------------------------
  // The choice
  // ---------------------------------------------------------------------------

  /** How many nice points task t has over u: four for each step of priority, one for each step of nice. */
  function Points(t: Task, u: Task): int { 4 * (t.priority - u.priority) + (u.nice - t.nice) }

  /** At every selection, of two tasks that could run, u is not chosen when t leads by a point, where eight selections
      of waiting make up for one; with exactly equal claims the lower slot goes first. */
  lemma NotPassedOver(s: State, i: nat, j: nat)
    requires Inv(s) && Selects(s) && i < MAX_TASKS && j < MAX_TASKS && Eligible(s, i) && Eligible(s, j)
    ensures var t, u := s.tasks[i], s.tasks[j];
            && (t.age + 8 * Points(t, u) >= u.age + 8 ==> Choice(s) != j)
            && (t.age + 8 * Points(t, u) == u.age && i < j ==> Choice(s) != j)
  {
    var c := Counted(s, s.current);
    CountedInv(s, s.current);
    CountedSame(s, i);
    CountedSame(s, j);
    assert c.tasks[i] == s.tasks[i] && c.tasks[j] == s.tasks[j];
    forall k | 0 <= k < MAX_TASKS && Eligible(c, k) ensures Score(c.tasks[k]) > -9999 { assert SlotOk(c, k); }
    BestWins(c, MAX_TASKS);
    if Choice(s) == j {
      assert Beats(c, j, i);
      Eighths(s.tasks[i].age, Points(s.tasks[i], s.tasks[j]));
    }
  }

  lemma Eighths(age: nat, p: int)
    ensures (age + 8 * p) / 8 == age / 8 + p
  {}

  /** Each field by itself: the lower nice value, the higher priority, and the longer wait come first. */
  lemma FieldByField(s: State, i: nat, j: nat)
    requires Inv(s) && Selects(s) && i < MAX_TASKS && j < MAX_TASKS && Eligible(s, i) && Eligible(s, j)
    requires Choice(s) == j
    ensures var t, u := s.tasks[i], s.tasks[j];
            && (t.priority == u.priority && t.age == u.age ==> t.nice >= u.nice)
            && (t.nice == u.nice && t.age == u.age ==> t.priority <= u.priority)
            && (t.priority == u.priority && t.nice == u.nice ==> t.age < u.age + 8)
  {
    NotPassedOver(s, i, j);
  }

  /** What a selection does: the chosen task runs on the boot processor, the one before goes back to the pool. */
  lemma Turn(s: State)
    requires Inv(s) && Selects(s)
    ensures var b, r := Choice(s), Tick(s);
            && r.current == (if b < 0 then s.current else b)
            && r.tasks[r.current].cpu == 0
            && (b >= 0 ==> Eligible(s, b))
            && (b >= 0 ==> r.tasks[s.current].cpu == -1 && r.tasks[s.current].status == s.tasks[s.current].status)
  {
    if Choice(s) >= 0 { CountedSame(s, Choice(s)); }
  }

  // ---------------------------------------------------------------------------
  // The length of a turn
  // ---------------------------------------------------------------------------

  /** After n timer ticks. */
  function Ticks(s: State, n: nat): (r: State)
    requires Shaped(s)
    ensures Shaped(r)
    decreases n, |s.tasks|
  {
    if n == 0 then s else Apply(Ticks(s, n - 1), OpTick)
  }

  /** A running task with n ticks left is left alone by n - 1 ticks, and the n-th selects. */
  lemma {:induction false} SliceLength(s: State, k: nat)
    requires Inv(s) && s.count >= 2 && s.tasks[s.current].status == Running && k < s.tasks[s.current].ticks
    ensures var t := s.tasks[s.current];
            && Ticks(s, k) == Put(s, s.current, t.(ticks := t.ticks - k))
            && (Selects(Ticks(s, k)) <==> k + 1 == t.ticks)
    decreases k
  {
    assert SlotOk(s, s.current);
    if k > 0 { SliceLength(s, k - 1); } else { assert Put(s, s.current, s.tasks[s.current]) == s; }
  }

  /** When its slice is over a running task is given as many ticks as its priority for its next turn. */
  lemma NextSlice(s: State)
    requires Inv(s) && Selects(s) && s.tasks[s.current].status == Running
    ensures Tick(s).tasks[s.current].ticks == s.tasks[s.current].priority
  {}

  /** A legal priority also is the new length of the slice, at once; any other value, or a task that is not there,
      changes nothing. */
  lemma PrioritySet(s: State, id: int, v: int)
    requires Shaped(s)
    ensures var r := Apply(s, OpSetPriority(id, v));
            if Live(s, id) && v in {1, 2, 3}
            then r.tasks == s.tasks[id := r.tasks[id]] && r.tasks[id].ticks == r.tasks[id].priority == v
            else r == s
  {}

  /** A task that yields is replaced, or at least compared with the others, at the next tick. */
  lemma Yields(s: State)
    requires Inv(s) && s.count >= 2
    ensures Selects(Apply(s, OpYield))
  {}

  function Distance(x: int, y: int): nat { if x < y then y - x else x - y }

  /** The nice value set is the legal one nearest to the request. */
  lemma NearestNice(s: State, id: nat, v: int, n: int)
    requires Shaped(s) && Live(s, id) && -20 <= n <= 19
    ensures var c := Apply(s, OpSetNice(id, v)).tasks[id].nice;
            -20 <= c <= 19 && Distance(c, v) <= Distance(n, v)
  {}

  // ---------------------------------------------------------------------------
  // The application processor
  // ---------------------------------------------------------------------------

  lemma SlotCovers(start: nat, i: nat) returns (k: nat)
    requires start < MAX_TASKS && i < MAX_TASKS
    ensures k < MAX_TASKS && Slot(start, k) == i
  {
    k := if i >= start then i - start else i + MAX_TASKS - start;
  }

  /** A scan finds something exactly when there is something to find. */
  lemma ApScanFinds(s: State, start: nat, mine: bool, i: nat)
    requires Shaped(s) && start < MAX_TASKS && i < MAX_TASKS && ApWants(s, i, mine)
    ensures ApScan(s, start, 0, mine) >= 0
  {
    var k := SlotCovers(start, i);
    var j := ApScanFirst(s, start, 0, mine);
    assert j <= k;
  }

  /** It takes a task assigned to it while there is one, then a free kernel task while there is one. */
  lemma ApPrefers(s: State, i: nat)
    requires Shaped(s) && i < MAX_TASKS
    ensures ApWants(s, i, true) ==> ApNext(s) >= 0 && ApWants(s, ApNext(s), true)
    ensures ApWants(s, i, false) ==> ApNext(s) >= 0
    ensures ApNext(s) >= 0 && !ApWants(s, ApNext(s), true) ==> ApWants(s, ApNext(s), false) && !ApWants(s, i, true)
  {
    if ApWants(s, i, true) { ApScanFinds(s, ApStart(s), true, i); }
    if ApWants(s, i, false) { ApScanFinds(s, ApStart(s), false, i); }
  }

  /** It runs kernel tasks only. */
  predicate KernelOnly(s: State)
    requires Shaped(s)
  {
    s.currentAp >= 0 ==> !s.tasks[s.currentAp].user
  }

  lemma TickUser(s: State, i: nat)
    requires Shaped(s) && i < MAX_TASKS
    ensures Tick(s).currentAp == s.currentAp && Tick(s).tasks[i].user == s.tasks[i].user
  {}

  lemma ApTickKernel(s: State)
    requires Shaped(s) && KernelOnly(s)
    ensures KernelOnly(ApTick(s))
  {
    var c := Counted(s, s.currentAp);
    assert c.currentAp == s.currentAp && KernelOnly(c);
    var next := ApNext(c);
    assert next >= 0 ==> !c.tasks[next].user;
  }

  lemma KernelOnlyStep(s: State, op: Op)
    requires Inv(s) && KernelOnly(s)
    ensures KernelOnly(Apply(s, op))
  {
    match op
    case OpTick => if s.currentAp >= 0 { TickUser(s, s.currentAp); } else { TickUser(s, 0); }
    case OpApTick => ApTickKernel(s);
    case OpCreate => if s.currentAp >= 0 { CreateAges(s, op, s.currentAp); }
    case OpCreateUser => if s.currentAp >= 0 { CreateAges(s, op, s.currentAp); }
    case OpCreateThread(_) => if s.currentAp >= 0 { CreateAges(s, op, s.currentAp); }
    case OpFork => if s.currentAp >= 0 { CreateAges(s, op, s.currentAp); }
    case _ =>
  }

  lemma {:induction false} ApRunsKernelTasks(s: State, ops: seq<Op>)
    requires Inv(s) && KernelOnly(s)
    ensures KernelOnly(Run(s, ops))
    decreases |ops|
  {
    if |ops| > 0 {
      KernelOnlyStep(s, ops[0]);
      ApplyInv(s, ops[0]);
      ApRunsKernelTasks(Apply(s, ops[0]), ops[1..]);
    }
  }

  // ---------------------------------------------------------------------------
  // New tasks
  // ---------------------------------------------------------------------------

  lemma {:induction false} FreeSlotLowest(s: State, i: nat)
    requires Shaped(s) && 1 <= i <= MAX_TASKS
    ensures var r := FreeSlot(s, i);
            && (r < 0 <==> forall k :: i <= k < MAX_TASKS ==> s.tasks[k].used)
            && (r >= 0 ==> i <= r && forall k :: i <= k < r ==> s.tasks[k].used)
    decreases MAX_TASKS - i
  {
    if i < MAX_TASKS && s.tasks[i].used { FreeSlotLowest(s, i + 1); }
  }

  predicate Creates(op: Op) { op.OpCreate? || op.OpCreateUser? || op.OpFork? }

  /** A new task takes the lowest free slot above the shell's and no other slot changes; without one nothing changes. A
      user task can be chosen at once; a kernel task can where there is no application processor, and otherwise waits
      for that one. A child can where its parent could. */
  lemma NewTask(s: State, op: Op)
    requires Inv(s) && Creates(op)
    ensures var id, r := FreeSlot(s, 1), Apply(s, op);
            && (id < 0 ==> r == s)
            && (id >= 0 ==> r.tasks == s.tasks[id := r.tasks[id]] && r.tasks[id].used && r.current == s.current)
            && (id >= 0 && op.OpCreateUser? ==> Eligible(r, id))
            && (id >= 0 && op.OpCreate? ==> if s.hasAp then ApWants(r, id, true) && !Eligible(r, id)
                else Eligible(r, id))
            && (id >= 0 && op.OpFork? ==> (Eligible(r, id) <==> (s.hasAp ==> s.tasks[s.current].user)))
  {
    var id := FreeSlot(s, 1);
    if id >= 0 { assert s.tasks[s.current].used && id != s.current; }
  }

  /** Slices of new tasks: one tick for a kernel task, two for a user task, the parent's remaining ones for a child. */
  lemma NewSlice(s: State, op: Op)
    requires Inv(s) && Creates(op) && FreeSlot(s, 1) >= 0
    ensures var t, me := Apply(s, op).tasks[FreeSlot(s, 1)], s.tasks[s.current];
            && (op.OpCreate? ==> t.priority == t.ticks == 1)
            && (op.OpCreateUser? ==> t.priority == t.ticks == 2)
            && (op.OpFork? ==> t.priority == me.priority && t.ticks == me.ticks && t.nice == me.nice)
  {}

  // ---------------------------------------------------------------------------
  // Blocking and sleeping
  // ---------------------------------------------------------------------------

  /** Free of every processor, and allowed on the boot processor: what eligibility asks for besides running. */
  predicate Loose(s: State, i: nat)
    requires Shaped(s) && i < MAX_TASKS
  {
    s.tasks[i].used && s.tasks[i].cpu == -1 && i != s.current && (s.hasAp ==> s.tasks[i].user)
  }

  /** Unblocking makes a blocked task eligible, leaves a sleeping one asleep, and touches no other task. */
  lemma Unblocked(s: State, i: nat, j: nat)
    requires Shaped(s) && i < MAX_TASKS && j < MAX_TASKS
    ensures var r := Apply(s, OpUnblock(i));
            && (Eligible(r, i) <==> Loose(s, i) && s.tasks[i].status != Sleeping)
            && (j != i ==> Eligible(r, j) == Eligible(s, j))
  {}

  /** Out of the processor and asleep until time w. */
  predicate Asleep(s: State, i: nat, w: nat, user: bool)
    requires Shaped(s) && i < MAX_TASKS
  {
    var t := s.tasks[i];
    t.used && t.status == Sleeping && t.wake == w && t.cpu == -1 && t.user == user && i != s.current
  }

  /** Going to sleep: with any other task eligible, the next tick takes the sleeper off the processor. */
  lemma FallsAsleep(s: State, ms: nat, now: nat, j: nat)
    requires Inv(s) && j < MAX_TASKS && Eligible(s, j)
    ensures var r := Tick(Apply(s, OpSleep(ms, now)));
            r.current != s.current
            && Asleep(r, s.current, (now + if ms > 0 then ms else 1) % 0x1_0000_0000, s.tasks[s.current].user)
  {
    var q := Apply(s, OpSleep(ms, now));
    ApplyInv(s, OpSleep(ms, now));
    assert Eligible(q, j);
    WaiterSelects(q, j);
    CountedInv(q, q.current);
    CountedSame(q, j);
    var c := Counted(q, q.current);
    forall k | 0 <= k < MAX_TASKS && Eligible(c, k) ensures Score(c.tasks[k]) > -9999 { assert SlotOk(c, k); }
    BestWins(c, MAX_TASKS);
    assert Choice(q) >= 0;
  }

  predicate Due(op: Op, w: nat) { op.OpWake? && op.now >= w }

  lemma SelectedAsleep(s: State, i: nat, w: nat, user: bool)
    requires Inv(s) && i < MAX_TASKS && Asleep(s, i, w, user)
    ensures Asleep(Selected(s), i, w, user)
  {
    var b := BestOf(s, MAX_TASKS);
    assert b != i;
  }

  lemma ApSelectedAsleep(s: State, i: nat, w: nat, user: bool)
    requires Inv(s) && i < MAX_TASKS && Asleep(s, i, w, user)
    ensures Asleep(ApSelected(s), i, w, user)
  {
    assert i != s.currentAp;
    var next := ApNext(s);
    assert next != i;
  }

  /** Nothing but a check at or after the wake time ends the sleep. */
  lemma AsleepStep(s: State, op: Op, i: nat, w: nat, user: bool)
    requires Inv(s) && i < MAX_TASKS && Asleep(s, i, w, user) && !Due(op, w)
    ensures Asleep(Apply(s, op), i, w, user)
  {
    match op
    case OpTick =>
      CountedInv(s, s.current);
      SelectedAsleep(Counted(s, s.current), i, w, user);
    case OpApTick =>
      CountedInv(s, s.currentAp);
      ApSelectedAsleep(Counted(s, s.currentAp), i, w, user);
    case OpCreate => CreateAges(s, op, i);
    case OpCreateUser => CreateAges(s, op, i);
    case OpCreateThread(_) => CreateAges(s, op, i);
    case OpFork => CreateAges(s, op, i);
    case _ =>
  }

  /** Whatever else happens, a sleeping task stays asleep and is not eligible until the first check at or after its wake
      time. */
  lemma {:induction false} SleepsOn(s: State, ops: seq<Op>, i: nat, w: nat, user: bool)
    requires Inv(s) && i < MAX_TASKS && Asleep(s, i, w, user) && forall k :: 0 <= k < |ops| ==> !Due(ops[k], w)
    ensures Asleep(Run(s, ops), i, w, user) && !Eligible(Run(s, ops), i)
    decreases |ops|
  {
    if |ops| > 0 {
      AsleepStep(s, ops[0], i, w, user);
      ApplyInv(s, ops[0]);
      SleepsOn(Apply(s, ops[0]), ops[1..], i, w, user);
    }
  }

  /** A check makes a sleeping task eligible exactly when its time has come. */
  lemma WakesUp(s: State, i: nat, w: nat, user: bool, now: nat)
    requires Shaped(s) && i < MAX_TASKS && Asleep(s, i, w, user) && (s.hasAp ==> user)
    ensures Eligible(Apply(s, OpWake(now)), i) <==> now >= w
  {}

  /** The clock has 32 bits. A sleeper is woken by no check before its time is over exactly when its wake time fits in
      the clock; otherwise the first check wakes it. */
  lemma SleepLong(now: nat, ms: nat, w: nat, check: nat)
    requires now < 0x1_0000_0000 && 0 < ms < 0x1_0000_0000 && w == (now + ms) % 0x1_0000_0000
    ensures now + ms < 0x1_0000_0000 ==> (check >= w <==> check >= now + ms)
    ensures now + ms >= 0x1_0000_0000 && check >= now ==> check >= w
  {}
}
