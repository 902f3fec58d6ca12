/** The task scheduler of src/kernel/task.c: one boot processor (CPU 0) and one application processor (CPU 1). */
module Scheduler {

  const MAX_TASKS: nat := 32
  const MAX_AGE: nat := 0xFFFF_FFFF

  datatype Status = Running | Blocked | Sleeping

  /** The fields of a task slot that scheduling reads or writes. `cpu` is -1 for a task no processor holds. */
  datatype Task = Task(used: bool, status: Status, wake: nat, priority: nat, ticks: nat, cpu: int, user: bool,
      nice: int, age: nat)

  datatype State = State(tasks: seq<Task>, current: nat, currentAp: int, count: nat, hasAp: bool)

  predicate Shaped(s: State) {
    |s.tasks| == MAX_TASKS && s.current < MAX_TASKS && -1 <= s.currentAp < MAX_TASKS
  }

  const Vacant: Task := Task(false, Running, 0, 0, 0, 0, false, 0, 0)

  /** After `task_init` and `task_set_main`: the shell alone, on CPU 0. */
  function Boot(): State {
    State(seq(MAX_TASKS, i requires 0 <= i < MAX_TASKS => if i == 0 then Task(true, Running, 0, 3, 3, 0, true, 0, 0)
        else Vacant), 0, -1, 1, false)
  }

  function Put(s: State, i: nat, t: Task): State
    requires Shaped(s) && i < MAX_TASKS
  {
    s.(tasks := s.tasks[i := t])
  }

  // ---------------------------------------------------------------------------
  // What each operation does
  // ---------------------------------------------------------------------------

  function Score(t: Task): int { t.priority * 4 - t.nice + t.age / 8 }

  /** Waiting for the boot processor, as the aging loop sees it. */
  predicate Waits(s: State, i: nat)
    requires Shaped(s) && i < MAX_TASKS
  {
    var t := s.tasks[i];
    t.used && t.status == Running && t.cpu == -1 && i != s.current
  }

  /** Waiting, and allowed on the boot processor. */
  predicate Eligible(s: State, i: nat)
    requires Shaped(s) && i < MAX_TASKS
  {
    Waits(s, i) && (s.hasAp ==> s.tasks[i].user)
  }

  /** The choice of the selection loop after the first n slots; -1 for none. */
  function BestOf(s: State, n: nat): (b: int)
    requires Shaped(s) && n <= MAX_TASKS
    ensures -1 <= b < n && (b >= 0 ==> Eligible(s, b))
    decreases n, |s.tasks|
  {
    if n == 0 then -1 else
      var b := BestOf(s, n - 1);
      if Eligible(s, n - 1) && Score(s.tasks[n - 1]) > BestScore(s, b) then n - 1 else b
  }

  function BestScore(s: State, b: int): int
    requires Shaped(s) && -1 <= b < MAX_TASKS
  {
    if b < 0 then -9999 else Score(s.tasks[b])
  }

  function Older(t: Task): Task { if t.age < MAX_AGE then t.(age := t.age + 1) else t }

  function Aged(s: State, best: int): State
    requires Shaped(s)
  {
    s.(tasks := seq(MAX_TASKS, i requires 0 <= i < MAX_TASKS => if Waits(s, i) && i != best then Older(s.tasks[i])
        else s.tasks[i]))
  }

  /** `task_tick_countdown_or_reset`: whether the task keeps its processor, and its new tick count. */
  predicate Keeps(s: State, tid: int)
    requires Shaped(s) && tid < MAX_TASKS
  {
    tid >= 0 && s.tasks[tid].used && s.tasks[tid].status == Running && s.tasks[tid].ticks > 1
  }

  function Counted(s: State, tid: int): State
    requires Shaped(s) && tid < MAX_TASKS
  {
    if tid < 0 || !s.tasks[tid].used || s.tasks[tid].status != Running then s
    else if s.tasks[tid].ticks > 1 then Put(s, tid, s.tasks[tid].(ticks := s.tasks[tid].ticks - 1))
    else Put(s, tid, s.tasks[tid].(ticks := s.tasks[tid].priority))
  }

  function Switched(s: State, next: nat): State
    requires Shaped(s) && next < MAX_TASKS
  {
    var t := Put(s, s.current, s.tasks[s.current].(cpu := -1));
    Put(t, next, t.tasks[next].(cpu := 0, age := 0)).(current := next)
  }

  /** Selection proper, once the tick count has run out. */
  function Selected(s: State): State
    requires Shaped(s)
  {
    var best := BestOf(s, MAX_TASKS);
    if best < 0 then Aged(s, best) else Switched(Aged(s, best), best)
  }

  /** Whether this timer tick of the boot processor reaches selection. */
  predicate Selects(s: State)
    requires Shaped(s)
  {
    s.count >= 2 && !Keeps(s, s.current)
  }

  function Tick(s: State): State
    requires Shaped(s)
  {
    if s.count < 2 then s
    else if Keeps(s, s.current) then Counted(s, s.current)
    else Selected(Counted(s, s.current))
  }

  predicate ApWants(s: State, j: nat, mine: bool)
    requires Shaped(s) && j < MAX_TASKS
  {
    var t := s.tasks[j];
    t.used && t.status == Running && !t.user && t.cpu == (if mine then 1 else -1) && (mine ==> j != s.currentAp)
  }

  function Slot(start: nat, k: nat): (j: nat)
    ensures j < MAX_TASKS
  {
    (start + k) % MAX_TASKS
  }

  lemma SlotNext(start: nat, k: nat)
    ensures (Slot(start, k) + 1) % MAX_TASKS == Slot(start, k + 1)
    ensures start < MAX_TASKS ==> Slot(start, 0) == start
  {}

  /** The first wanted slot in circular order from `start`, after k misses; -1 for none. */
  function ApScan(s: State, start: nat, k: nat, mine: bool): (r: int)
    requires Shaped(s) && k <= MAX_TASKS
    ensures -1 <= r < MAX_TASKS && (r >= 0 ==> ApWants(s, r, mine))
    decreases MAX_TASKS - k, |s.tasks|
  {
    if k == MAX_TASKS then -1
    else if ApWants(s, Slot(start, k), mine) then Slot(start, k)
    else ApScan(s, start, k + 1, mine)
  }

  function ApStart(s: State): nat
    requires Shaped(s)
  {
    if s.currentAp >= 0 then (s.currentAp + 1) % MAX_TASKS else 0
  }

  function ApNext(s: State): (r: int)
    requires Shaped(s)
  {
    var first := ApScan(s, ApStart(s), 0, true);
    if first >= 0 then first else ApScan(s, ApStart(s), 0, false)
  }

  function ApSetCpu(s: State, cpu: int): State
    requires Shaped(s)
  {
    if s.currentAp >= 0 && s.tasks[s.currentAp].used then Put(s, s.currentAp, s.tasks[s.currentAp].(cpu := cpu)) else s
  }

  function ApSelected(s: State): State
    requires Shaped(s)
  {
    var next := ApNext(s);
    if next < 0 || next == s.currentAp then ApSetCpu(s, 1)
    else
      var t := ApSetCpu(s, -1);
      Put(t, next, t.tasks[next].(cpu := 1)).(currentAp := next)
  }

  function ApTick(s: State): State
    requires Shaped(s)
  {
    if s.count < 1 then s
    else if Keeps(s, s.currentAp) then Counted(s, s.currentAp)
    else ApSelected(Counted(s, s.currentAp))
  }

  /** The first free slot above the shell's; -1 for none. */
  function FreeSlot(s: State, i: nat): (r: int)
    requires Shaped(s) && 1 <= i <= MAX_TASKS
    ensures r == -1 || (1 <= r < MAX_TASKS && !s.tasks[r].used)
    decreases MAX_TASKS - i, |s.tasks|
  {
    if i == MAX_TASKS then -1 else if !s.tasks[i].used then i else FreeSlot(s, i + 1)
  }

  function Extend(s: State, id: nat): State { if id >= s.count then s.(count := id + 1) else s }

  /** A new task in the first free slot; nice and age stay what the slot holds. */
  function Created(s: State, priority: nat, cpu: int, user: bool): State
    requires Shaped(s)
  {
    var id := FreeSlot(s, 1);
    if id < 0 then s
    else Put(Extend(s, id), id,
        Task(true, Running, 0, priority, priority, cpu, user, s.tasks[id].nice, s.tasks[id].age))
  }

  function Threaded(s: State, parent: int): State
    requires Shaped(s)
  {
    var id := FreeSlot(s, 1);
    if id < 0 then s
    else if parent < 0 || parent >= MAX_TASKS || !s.tasks[parent].used then Extend(s, id)
    else Created(s, 2, -1, true)
  }

  function Forked(s: State): State
    requires Shaped(s)
  {
    var id := FreeSlot(s, 1);
    if id < 0 then s
    else Put(Extend(s, id), id, s.tasks[s.current].(used := true, status := Running, cpu := -1, wake := 0))
  }

  function Woken(t: Task, now: nat): Task {
    if t.used && t.status == Sleeping && now >= t.wake then t.(status := Running) else t
  }

  function ClampNice(v: int): int { if v < -20 then -20 else if v > 19 then 19 else v }

  datatype Op =
    | OpTick | OpApTick | OpBlock | OpUnblock(id: int) | OpSleep(ms: nat, now: nat) | OpWake(now: nat) | OpYield
    | OpSetNice(id: int, v: int) | OpSetPriority(id: int, v: int)
    | OpCreate | OpCreateUser | OpCreateThread(parent: int) | OpFork | OpHasAp(on: bool)

  predicate Live(s: State, id: int)
    requires Shaped(s)
  {
    0 <= id < MAX_TASKS && s.tasks[id].used
  }

  function Apply(s: State, op: Op): (r: State)
    requires Shaped(s)
    ensures Shaped(r)
  {
    var me := s.tasks[s.current];
    match op
    case OpTick => Tick(s)
    case OpApTick => ApTick(s)
    case OpBlock => Put(s, s.current, me.(status := Blocked))
    case OpUnblock(id) =>
      if Live(s, id) && s.tasks[id].status == Blocked then Put(s, id, s.tasks[id].(status := Running)) else s
    case OpSleep(ms, now) =>
      Put(s, s.current, me.(status := Sleeping, wake := (now + if ms > 0 then ms else 1) % 0x1_0000_0000))
    case OpWake(now) => s.(tasks := seq(MAX_TASKS, i requires 0 <= i < MAX_TASKS => Woken(s.tasks[i], now)))
    case OpYield => if me.status == Running then Put(s, s.current, me.(ticks := 1)) else s
    case OpSetNice(id, v) => if Live(s, id) then Put(s, id, s.tasks[id].(nice := ClampNice(v))) else s
    case OpSetPriority(id, v) =>
      if Live(s, id) && 1 <= v <= 3 then Put(s, id, s.tasks[id].(priority := v, ticks := v)) else s
    case OpCreate => Created(s, 1, if s.hasAp then 1 else -1, false)
    case OpCreateUser => Created(s, 2, -1, true)
    case OpCreateThread(parent) => Threaded(s, parent)
    case OpFork => Forked(s)
    case OpHasAp(v) => s.(hasAp := v)
  }

  /** The state after any interleaving of operations. */
  function Run(s: State, ops: seq<Op>): (r: State)
    requires Shaped(s)
    ensures Shaped(r)
    decreases |ops|
  {
    if |ops| == 0 then s else Run(Apply(s, ops[0]), ops[1..])
  }

  // ---------------------------------------------------------------------------
  // Selection picks the best
  // ---------------------------------------------------------------------------

  predicate Beats(s: State, b: nat, i: nat)
    requires Shaped(s) && b < MAX_TASKS && i < MAX_TASKS
  {
    Score(s.tasks[i]) < Score(s.tasks[b]) || (Score(s.tasks[i]) == Score(s.tasks[b]) && b <= i)
  }

  /** The highest score wins, the lowest slot among equals; none is chosen only if none could be. */
  lemma {:induction false} BestWins(s: State, n: nat)
    requires Shaped(s) && n <= MAX_TASKS && forall i :: 0 <= i < n && Eligible(s, i) ==> Score(s.tasks[i]) > -9999
    ensures var b := BestOf(s, n);
            (b < 0 <==> forall i :: 0 <= i < n ==> !Eligible(s, i))
            && (b >= 0 ==> Eligible(s, b) && forall i :: 0 <= i < n && Eligible(s, i) ==> Beats(s, b, i))
  {
    if n > 0 { BestWins(s, n - 1); }
  }

  /** The application processor takes the first wanted slot in circular order. */
  lemma {:induction false} ApScanFirst(s: State, start: nat, k: nat, mine: bool) returns (j: nat)
    requires Shaped(s) && k <= MAX_TASKS
    ensures k <= j <= MAX_TASKS
    ensures forall m :: k <= m < j ==> !ApWants(s, Slot(start, m), mine)
    ensures ApScan(s, start, k, mine) == if j == MAX_TASKS then -1 else Slot(start, j)
    ensures j < MAX_TASKS ==> ApWants(s, Slot(start, j), mine)
    decreases MAX_TASKS - k
  {
    j := k;
    if k < MAX_TASKS && !ApWants(s, Slot(start, k), mine) {
      j := ApScanFirst(s, start, k + 1, mine);
    }
  }

  // ---------------------------------------------------------------------------
  // The kernel's own tables, updated in place
  // ---------------------------------------------------------------------------

  class Kernel {
    const tasks: array<Task>
    var current: nat
    var currentAp: int
    var count: nat
    var hasAp: bool

    ghost predicate Valid()
      reads this
    {
      tasks.Length == MAX_TASKS && current < MAX_TASKS && -1 <= currentAp < MAX_TASKS
    }

    ghost function S(): State
      reads this, tasks
    {
      State(tasks[..], current, currentAp, count, hasAp)
    }

    /** `task_init` and `task_set_main`. */
    constructor ()
      ensures Valid() && fresh(tasks) && S() == Boot()
    {
      tasks := new Task[MAX_TASKS](_ => Vacant);
      current, currentAp, count, hasAp := 0, -1, 1, false;
      new;
      tasks[0] := Task(true, Running, 0, 3, 3, 0, true, 0, 0);
      assert tasks[..] == Boot().tasks;
    }

    method CountdownOrReset(tid: int) returns (keeps: bool)
      requires Valid() && tid < MAX_TASKS
      modifies tasks
      ensures Valid() && keeps == Keeps(old(S()), tid) && S() == Counted(old(S()), tid)
    {
      if tid < 0 { return false; }
      if tasks[tid].used && tasks[tid].status == Running && tasks[tid].ticks > 1 {
        tasks[tid] := tasks[tid].(ticks := tasks[tid].ticks - 1);
        return true;
      }
      if tasks[tid].used && tasks[tid].status == Running {
        tasks[tid] := tasks[tid].(ticks := tasks[tid].priority);
      }
      return false;
    }

    /** The selection loop. */
    method PickBest() returns (best: int)
      requires Valid()
      ensures best == BestOf(S(), MAX_TASKS)
    {
      best := -1;
      var bestScore := -9999;
      for i := 0 to MAX_TASKS
        invariant best == BestOf(S(), i) && bestScore == BestScore(S(), best)
      {
        var t := tasks[i];
        if !t.used || t.status != Running || t.cpu != -1 || i == current || (hasAp && !t.user) { continue; }
        var score := t.priority * 4 - t.nice + t.age / 8;
        if score > bestScore { bestScore := score; best := i; }
      }
    }

    /** The aging loop. */
    method AgeOthers(best: int)
      requires Valid()
      modifies tasks
      ensures Valid() && S() == Aged(old(S()), best)
    {
      ghost var s := S();
      for i := 0 to MAX_TASKS
        invariant Valid() && forall k :: 0 <= k < MAX_TASKS ==> tasks[k] == if k < i then Aged(s, best).tasks[k]
          else s.tasks[k]
      {
        var t := tasks[i];
        if !t.used || t.status != Running || t.cpu != -1 || i == best || i == current { continue; }
        if t.age < MAX_AGE { tasks[i] := t.(age := t.age + 1); }
      }
      assert tasks[..] == Aged(s, best).tasks;
    }

    /** `task_switch`: a timer tick of the boot processor. */
    method TaskSwitch()
      requires Valid()
      modifies this, tasks
      ensures Valid() && S() == Tick(old(S()))
    {
      if count < 2 { return; }
      var keeps := CountdownOrReset(current);
      if keeps { return; }
      var best := PickBest();
      AgeOthers(best);
      var next := best;
      if next < 0 || !tasks[next].used || tasks[next].status != Running || tasks[next].cpu != -1 || next == current {
        return;
      }
      tasks[current] := tasks[current].(cpu := -1);
      tasks[next] := tasks[next].(cpu := 0);
      tasks[next] := tasks[next].(age := 0);
      current := next;
    }

    /** One pass of `task_switch_ap` around the table. */
    method ApFind(start: nat, mine: bool) returns (found: bool, next: nat)
      requires Valid() && start < MAX_TASKS
      ensures next < MAX_TASKS
      ensures ApScan(S(), start, 0, mine) == if found then next else -1
    {
      next := start;
      var i := 0;
      SlotNext(start, 0);
      while i < MAX_TASKS
        invariant i <= MAX_TASKS && next == Slot(start, i)
        invariant ApScan(S(), start, 0, mine) == ApScan(S(), start, i, mine)
      {
        var t := tasks[next];
        if t.used && t.status == Running && !t.user && t.cpu == (if mine then 1 else -1)
            && (!mine || next != currentAp) {
          return true, next;
        }
        SlotNext(start, i);
        next := (next + 1) % MAX_TASKS;
        i := i + 1;
      }
      found := false;
    }

    /** `task_switch_ap(1)`: a timer tick of the application processor. */
    method TaskSwitchAp()
      requires Valid()
      modifies this, tasks
      ensures Valid() && S() == ApTick(old(S()))
    {
      if count < 1 { return; }
      var keeps := CountdownOrReset(currentAp);
      if !keeps { ApSelect(); }
    }

    /** Assigned tasks first, then stealing; -1 for none. */
    method ApChoose() returns (next: int)
      requires Valid()
      ensures next == ApNext(S())
    {
      var start := if currentAp >= 0 then (currentAp + 1) % MAX_TASKS else 0;
      var found, n := ApFind(start, true);
      if !found { found, n := ApFind(start, false); }
      next := if found then n else -1;
    }

    method ApClaim(cpu: int)
      requires Valid()
      modifies tasks
      ensures Valid() && S() == ApSetCpu(old(S()), cpu)
    {
      if currentAp >= 0 && tasks[currentAp].used { tasks[currentAp] := tasks[currentAp].(cpu := cpu); }
    }

    method ApSelect()
      requires Valid()
      modifies this, tasks
      ensures Valid() && S() == ApSelected(old(S()))
    {
      var next := ApChoose();
      if next < 0 || next == currentAp {
        ApClaim(1);
        return;
      }
      ApClaim(-1);
      tasks[next] := tasks[next].(cpu := 1);
      currentAp := next;
    }

    method FindFree() returns (id: int)
      requires Valid()
      ensures id == FreeSlot(S(), 1)
    {
      id := -1;
      var i := 1;
      while i < MAX_TASKS
        invariant 1 <= i <= MAX_TASKS && FreeSlot(S(), 1) == FreeSlot(S(), i)
      {
        if !tasks[i].used { return i; }
        i := i + 1;
      }
    }

    method CheckSleepers(now: nat)
      requires Valid()
      modifies tasks
      ensures Valid() && S() == Apply(old(S()), OpWake(now))
    {
      ghost var s := S();
      for i := 0 to MAX_TASKS
        invariant Valid() && forall k :: 0 <= k < MAX_TASKS ==> tasks[k] == if k < i then Woken(s.tasks[k], now)
          else s.tasks[k]
      {
        if tasks[i].used && tasks[i].status == Sleeping && now >= tasks[i].wake {
          tasks[i] := tasks[i].(status := Running);
        }
      }
      assert tasks[..] == Apply(s, OpWake(now)).tasks;
    }

    method TaskCreate(priority: nat, cpu: int, user: bool) returns (id: int)
      requires Valid()
      modifies this, tasks
      ensures Valid() && S() == Created(old(S()), priority, cpu, user) && id == FreeSlot(old(S()), 1)
    {
      id := FindFree();
      if id == -1 { return; }
      if id >= count { count := id + 1; }
      tasks[id] := tasks[id].(used := true, status := Running, wake := 0);
      tasks[id] := tasks[id].(priority := priority, ticks := priority, cpu := cpu, user := user);
    }

    method TaskCreateThread(parent: int) returns (id: int)
      requires Valid()
      modifies this, tasks
      ensures Valid() && S() == Threaded(old(S()), parent)
    {
      id := FindFree();
      if id == -1 { return; }
      if id >= count { count := id + 1; }
      if parent < 0 || parent >= MAX_TASKS || !tasks[parent].used { return -1; }
      tasks[id] := tasks[id].(used := true, status := Running, wake := 0);
      tasks[id] := tasks[id].(priority := 2, ticks := 2, cpu := -1, user := true);
    }

    method TaskCreateFork(parent: nat) returns (id: int)
      requires Valid() && parent == current
      modifies this, tasks
      ensures Valid() && S() == Forked(old(S()))
    {
      id := FindFree();
      if id == -1 { return; }
      if id >= count { count := id + 1; }
      tasks[id] := tasks[parent];
      tasks[id] := tasks[id].(used := true, status := Running, cpu := -1, wake := 0);
    }

    method TaskSetPriority(id: int, prio: int) returns (ok: bool)
      requires Valid()
      modifies tasks
      ensures Valid() && S() == Apply(old(S()), OpSetPriority(id, prio))
      ensures ok == (Live(old(S()), id) && 1 <= prio <= 3)
    {
      if id < 0 || id >= MAX_TASKS || !tasks[id].used { return false; }
      if prio < 1 || prio > 3 { return false; }
      tasks[id] := tasks[id].(priority := prio, ticks := prio);
      return true;
    }

    method TaskSetNice(id: int, nice: int) returns (ok: bool)
      requires Valid()
      modifies tasks
      ensures Valid() && S() == Apply(old(S()), OpSetNice(id, nice)) && ok == Live(old(S()), id)
    {
      if id < 0 || id >= MAX_TASKS || !tasks[id].used { return false; }
      var v := nice;
      if v < -20 { v := -20; }
      if v > 19 { v := 19; }
      tasks[id] := tasks[id].(nice := v);
      return true;
    }

    /** Any one operation. */
    method Do(op: Op)
      requires Valid()
      modifies this, tasks
      ensures Valid() && S() == Apply(old(S()), op)
    {
      var id, ok;
      match op
      case OpTick => TaskSwitch();
      case OpApTick => TaskSwitchAp();
      case OpBlock => tasks[current] := tasks[current].(status := Blocked);
      case OpUnblock(i) =>
        if i >= 0 && i < MAX_TASKS && tasks[i].used && tasks[i].status == Blocked {
          tasks[i] := tasks[i].(status := Running);
        }
      case OpSleep(ms, now) =>
        var wait := if ms > 0 then ms else 1;
        tasks[current] := tasks[current].(status := Sleeping, wake := (now + wait) % 0x1_0000_0000);
      case OpWake(now) => CheckSleepers(now);
      case OpYield => if tasks[current].status == Running { tasks[current] := tasks[current].(ticks := 1); }
      case OpSetNice(i, v) => ok := TaskSetNice(i, v);
      case OpSetPriority(i, v) => ok := TaskSetPriority(i, v);
      case OpCreate => id := TaskCreate(1, if hasAp then 1 else -1, false);
      case OpCreateUser => id := TaskCreate(2, -1, true);
      case OpCreateThread(p) => id := TaskCreateThread(p);
      case OpFork => id := TaskCreateFork(current);
      case OpHasAp(v) => hasAp := v;
    }

    /** Any interleaving of operations. */
    method DoAll(ops: seq<Op>)
      requires Valid()
      modifies this, tasks
      ensures Valid() && S() == Run(old(S()), ops)
    {
      var i := 0;
      while i < |ops|
        invariant i <= |ops| && Valid() && Run(S(), ops[i..]) == Run(old(S()), ops)
      {
        assert ops[i..][0] == ops[i] && ops[i..][1..] == ops[i + 1..];
        Do(ops[i]);
        i := i + 1;
      }
    }
  }
}
