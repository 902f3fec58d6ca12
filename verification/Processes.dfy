/** Address spaces over whole runs: create, demand paging, fork, writes with their faults, exit. */
module Processes {
  import opened Paging
  import opened Cow
  import opened Spaces
  import opened NewDir
  import opened Steps
  import opened Teardown
  import opened Counters
  import opened Balance
  import opened Vmm

  type Views = map<nat, Space>

  ghost predicate Good(m: Machine)
    reads m, m.bitmap, m.cowCnt, m.frames
  {
    m.Shape() && Inv(m.S(), m.role)
  }

  ghost function ViewsOf(m: Machine): Views
    requires m.Shape()
    reads m, m.bitmap, m.cowCnt, m.frames
  {
    ViewOf(m.S(), m.role)
  }

  /** A page in a fresh frame changes no table. */
  lemma FreshTables(s: State, role: Roles, f: nat, pg: Page, r: nat, x: Ix)
    requires Inv(s, role) && IsProc(role, r) && Managed(f) && !s.used[f]
    ensures Missing(s.mem[f := pg], r, x) == Missing(s.mem, r, x)
    ensures Walk(s.mem[f := pg], r, x).Huge? <==> HugeIx(x)
  {
    assert HugeOk(s.mem, role, Key(r, x));
    assert RoleOk(s, role, f) && RoleOk(s, role, r);
    WalkRoles(s, role, r, x);
    SameTables(s, s.(mem := s.mem[f := pg]), role, r, x);
  }

  /** Demand paging (kernel.c, handle_demand_paging): a zeroed frame mapped writable at the page of `virt`.
      When the mapping does not take effect the frame `f` stays taken. */
  method DemandPage(m: Machine, r: nat, virt: nat) returns (f: nat, ghost ok: bool)
    requires Good(m) && IsProc(m.role, r)
    modifies m, m.bitmap, m.frames
    ensures Good(m) && Procs(m.role) == old(Procs(m.role))
    ensures f == 0 ==> !ok && m.S() == old(m.S()) && m.role == old(m.role) && AllUsed(m.S())
    ensures f != 0 ==> Managed(f) && !old(m.S().used)[f]
    ensures ok ==> f != 0 && MapsPage(Zeroed(old(m.S()), f), old(m.role), m.S(), m.role, r, IxOf(virt), Entry(f, 7))
    ensures NewOn(old(m.role), m.role, r, IxOf(virt))
    ensures !ok ==> ViewsOf(m) == old(ViewsOf(m))
    ensures !ok ==> Walk(m.S().mem, r, IxOf(virt)).Huge? || AllUsed(m.S())
    ensures ok ==> r in old(ViewsOf(m)) && ViewsOf(m) == Put(old(ViewsOf(m)), r, IxOf(virt), ZeroPage())
    ensures f == 0 <==> old(Free(m.S())) == 0
    ensures ok <==> !HugeIx(IxOf(virt)) && old(Free(m.S())) >= 1 + Missing(old(m.S().mem), r, IxOf(virt))
    ensures Free(m.S()) == Less(old(Free(m.S())), 1 + Missing(old(m.S().mem), r, IxOf(virt)))
  {
    ghost var s, role := m.S(), m.role;
    f := m.AllocZeroed();
    ok := false;
    if f != 0 { ok := MapTaken(m, r, virt, f, s, ZeroPage()); }
  }

  /** Maps a frame just taken in state `s` and filled with `pg`. */
  method MapTaken(m: Machine, r: nat, virt: nat, f: nat, ghost s: State, ghost pg: Page) returns (ghost ok: bool)
    requires m.Shape() && Inv(s, m.role) && IsProc(m.role, r) && Managed(f) && !s.used[f]
    requires m.S() == s.(used := s.used[f := true], mem := s.mem[f := pg])
    modifies m, m.bitmap, m.frames
    ensures Good(m) && Procs(m.role) == old(Procs(m.role)) && NewOn(old(m.role), m.role, r, IxOf(virt))
    ensures ok ==> MapsPage(old(m.S()), old(m.role), m.S(), m.role, r, IxOf(virt), Entry(f, 7))
    ensures ok <==> !HugeIx(IxOf(virt)) && Free(s) >= 1 + Missing(s.mem, r, IxOf(virt))
    ensures Free(m.S()) == Less(Free(s), 1 + Missing(s.mem, r, IxOf(virt)))
    ensures HugeIx(IxOf(virt)) ==> m.role == old(m.role)
    ensures !ok ==> ViewsOf(m) == ViewOf(s, old(m.role)) && (Walk(m.S().mem, r, IxOf(virt)).Huge? || AllUsed(m.S()))
    ensures ok ==> r in ViewOf(s, old(m.role)) && ViewsOf(m) == Put(ViewOf(s, old(m.role)), r, IxOf(virt), pg)
  {
    ghost var s1, role := m.S(), m.role;
    FreshPage(s, role, f, pg);
    FreshTables(s, role, f, pg, r, IxOf(virt));
    FreeTake(s, f);
    ok := m.MapPage(r, virt, f, 7);
    if ok {
      MapInv(s1, role, m.S(), m.role, r, IxOf(virt), f);
    } else {
      GrowsInv(s1, role, m.S(), m.role);
    }
  }

  /** The processor's part of a user store to the page of `virt`: a read-only entry faults, and a handled
      fault leaves it writable. Returns the page table with the writable entry, 0 if the store cannot be made. */
  method MakeWritable(m: Machine, r: nat, virt: nat) returns (t: nat)
    requires Good(m) && IsProc(m.role, r)
    modifies m.bitmap, m.cowCnt, m.frames
    ensures Good(m) && ViewsOf(m) == old(ViewsOf(m))
    ensures t == 0 ==> m.S() == old(m.S())
    ensures Free(m.S()) + 1 >= old(Free(m.S()))
    ensures Alone(old(m.S()), m.role, r, IxOf(virt)) ==> SameFrames(old(m.S()), m.S(), m.role)
    ensures t == 0 ==> Key(r, IxOf(virt)) !in TransOf(m.S().mem, m.role) || AllUsed(m.S())
    ensures t != 0 ==>
      && t < TOTAL_FRAMES && PtOf(m.S().mem, r, IxOf(virt)) == Some(t)
      && Key(r, IxOf(virt)) in TransOf(m.S().mem, m.role) && TransOf(m.S().mem, m.role)[Key(r, IxOf(virt))].rw
  {
    var x := IxOf(virt);
    ghost var s := m.S();
    assert RoleOk(s, m.role, r);
    TransAt(s, m.role, r, x);
    t := m.GetPte(r, virt);
    if t == 0 || !m.frames[t][x.d].p { return 0; }
    if !m.frames[t][x.d].rw {
      assert LeafOk(Procs(m.role), TransOf(s.mem, m.role), Key(r, x));
      var handled := m.CowFault(r, virt);
      if !handled { return 0; }
      TransAt(m.S(), m.role, r, x);
      t := m.GetPte(r, virt);
    }
  }

  lemma WriteWordThrough(s: State, role: Roles, r: nat, x: Ix, k: Index, w: Word)
    requires Inv(s, role) && Key(r, x) in TransOf(s.mem, role) && TransOf(s.mem, role)[Key(r, x)].rw
    ensures
      var f, v := TransOf(s.mem, role)[Key(r, x)].pfn, ViewOf(s, role);
      && f < TOTAL_FRAMES && r in v && x in v[r] && |v[r][x]| == 512
      && Inv(Store(s, f, k, w), role) && ViewOf(Store(s, f, k, w), role) == Put(v, r, x, v[r][x][k := w])
      && SameFrames(s, Store(s, f, k, w), role)
  {
    var f := TransOf(s.mem, role)[Key(r, x)].pfn;
    MappedOk(s, role, Key(r, x));
    assert LeafOk(Procs(role), TransOf(s.mem, role), Key(r, x));
    ViewAt(s, role, r, x);
    WriteThrough(s, role, r, x, s.mem[f][k := w]);
    FillTrans(s, role, f, s.mem[f][k := w]);
  }

  /** The store itself, through a writable entry. */
  method StoreWord(m: Machine, r: nat, virt: nat, t: nat, k: Index, w: Word)
    requires Good(m) && IsProc(m.role, r)
    requires t < TOTAL_FRAMES && PtOf(m.S().mem, r, IxOf(virt)) == Some(t)
    requires Key(r, IxOf(virt)) in TransOf(m.S().mem, m.role) && TransOf(m.S().mem, m.role)[Key(r, IxOf(virt))].rw
    modifies m.frames
    ensures Good(m)
    ensures
      var v, x := old(ViewsOf(m)), IxOf(virt);
      r in v && x in v[r] && |v[r][x]| == 512 && ViewsOf(m) == Put(v, r, x, v[r][x][k := w])
    ensures Free(m.S()) == old(Free(m.S())) && SameFrames(old(m.S()), m.S(), m.role)
  {
    ghost var s, x := m.S(), IxOf(virt);
    TransAt(s, m.role, r, x);
    WriteWordThrough(s, m.role, r, x, k, w);
    var f := m.frames[t][IxOf(virt).d].pfn;
    m.SetWord(f, k, w);
  }

  /** A store changed one word of one page of one address space, or nothing because the page is missing or no frame was
      left for a copy; at most one frame was taken. */
  ghost predicate Stored(s: State, v: Views, r: nat, x: Ix, k: Index, w: Word, done: bool, s': State, v': Views) {
    && WellFormed(s) && WellFormed(s') && r in v && Free(s') + 1 >= Free(s)
    && (done ==> x in v[r] && |v[r][x]| == 512 && v' == Put(v, r, x, v[r][x][k := w]))
    && (!done ==> s' == s && v' == v && (x !in v[r] || Free(s) == 0))
  }

  /** A user store of word `w` at word `k` of the page of `virt`. */
  method WriteWord(m: Machine, r: nat, virt: nat, k: Index, w: Word) returns (done: bool)
    requires Good(m) && IsProc(m.role, r)
    modifies m.bitmap, m.cowCnt, m.frames
    ensures Good(m) && Stored(old(m.S()), old(ViewsOf(m)), r, IxOf(virt), k, w, done, m.S(), ViewsOf(m))
    ensures Alone(old(m.S()), m.role, r, IxOf(virt)) ==> SameFrames(old(m.S()), m.S(), m.role)
  {
    ghost var s0 := m.S();
    var t := MakeWritable(m, r, virt);
    ghost var s1 := m.S();
    done := t != 0;
    assert r in Procs(m.role);
    if done {
      StoreWord(m, r, virt, t, k, w);
      if SameFrames(s0, s1, m.role) { SameFramesTrans(s0, s1, m.S(), m.role); }
    } else {
      ViewAt(m.S(), m.role, r, IxOf(virt));
      NoneFree(m.S());
    }
  }

  /** The pages below 1GB. */
  ghost function LowPart(sp: Space): Space {
    imap x | x in sp && Low(x) :: sp[x]
  }

  ghost predicate Part(sp: Space, of: Space) {
    forall x :: x in sp ==> x in of && sp[x] == of[x]
  }

  lemma NotNull(s: State, role: Roles, r: nat)
    requires Tree(s, role) && IsProc(role, r)
    ensures r != 0
  {
    assert RoleOk(s, role, r);
  }

  /** The memory side of SYS_FORK: a new address space, then copy-on-write sharing. */
  method Fork(m: Machine, p: nat) returns (c: nat)
    requires Good(m) && IsProc(m.role, p) && |Procs(m.role)| < 255
    modifies m, m.bitmap, m.cowCnt, m.frames
    ensures Good(m)
    ensures c == 0 ==> ViewsOf(m) == old(ViewsOf(m)) && Procs(m.role) == old(Procs(m.role))
    ensures c == 0 <==> old(Free(m.S())) < 3
    ensures Free(m.S()) + 515 >= old(Free(m.S()))
    ensures c != 0 ==>
      && p in old(ViewsOf(m)) && c !in old(ViewsOf(m)) && c in ViewsOf(m)
      && c !in old(Procs(m.role)) && Procs(m.role) == old(Procs(m.role)) + {c}
      && ViewsOf(m) == old(ViewsOf(m))[c := ViewsOf(m)[c]]
      && Part(ViewsOf(m)[c], LowPart(old(ViewsOf(m))[p]))
      && (AllUsed(m.S()) || ViewsOf(m)[c] == LowPart(old(ViewsOf(m))[p]))
      && Raises(old(m.S()), old(m.role), m.S(), m.role, p, 512, 0)
  {
    ghost var s0 := m.S();
    ghost var v0, r0 := ViewsOf(m), m.role;
    c := m.CreatePageDir();
    if c != 0 {
      ghost var v1, s1, r1 := ViewsOf(m), m.S(), m.role;
      assert p in Procs(r0);
      ProcCount(r0, r1, c);
      NotNull(s1, r1, p);
      m.CopyCow(p, c);
      CopiedResult(v0, v1, ViewsOf(m), p, c, !AllUsed(m.S()));
      RaisesAfter(s0, r0, s1, r1, m.S(), m.role, p, 512, 0);
    }
  }

  /** SYS_FORK with its last step: when there is no task slot the child is freed again, and no address space has
      changed. */
  method SysFork(m: Machine, p: nat, slot: bool) returns (c: nat)
    requires Good(m) && IsProc(m.role, p) && |Procs(m.role)| < 255
    modifies m, m.bitmap, m.cowCnt, m.frames
    ensures Good(m)
    ensures c == 0 ==> ViewsOf(m) == old(ViewsOf(m)) && Procs(m.role) == old(Procs(m.role))
    ensures c == 0 <==> !slot || old(Free(m.S())) < 3
    ensures c != 0 ==>
      && c !in old(ViewsOf(m)) && c in ViewsOf(m) && p in old(ViewsOf(m))
          && ViewsOf(m) == old(ViewsOf(m))[c := ViewsOf(m)[c]]
      && Procs(m.role) == old(Procs(m.role)) + {c} && Part(ViewsOf(m)[c], LowPart(old(ViewsOf(m))[p]))
    ensures c != 0 && old(Free(m.S())) >= 516 ==> ViewsOf(m)[c] == LowPart(old(ViewsOf(m))[p])
  {
    c := Fork(m, p);
    NoneFree(m.S());
    if c != 0 && !slot {
      DropChild(m, c, old(ViewsOf(m)), old(Procs(m.role)));
      c := 0;
    }
  }

  method DropChild(m: Machine, c: nat, ghost v: Views, ghost procs: set<nat>)
    requires Good(m) && c in ViewsOf(m) && c !in v && c !in procs && ViewsOf(m) == v[c := ViewsOf(m)[c]]
      && Procs(m.role) == procs + {c}
    modifies m, m.bitmap, m.cowCnt
    ensures Good(m) && ViewsOf(m) == v && Procs(m.role) == procs
  {
    ghost var y := ViewsOf(m)[c];
    assert c in Procs(m.role);
    NotNull(m.S(), m.role, c);
    m.FreeUserMemory(c);
    Dropped(v, c, y);
    assert procs + {c} - {c} == procs;
  }

  lemma Dropped(v: Views, c: nat, y: Space)
    requires c !in v
    ensures v[c := y] - {c} == v
  {}

  lemma ProcCount(role: Roles, role': Roles, c: nat)
    requires c !in Procs(role) && Procs(role') == Procs(role) + {c}
    ensures |Procs(role')| == |Procs(role)| + 1 && IsProc(role', c)
    ensures forall p :: p in Procs(role) ==> IsProc(role', p) && p != c
  {
    assert c in Procs(role');
    assert forall p :: p in Procs(role) ==> p in Procs(role');
  }

  lemma CopiedResult(v0: Views, v1: Views, v2: Views, p: nat, c: nat, full: bool)
    requires p in v0 && c !in v0 && v1 == v0[c := imap[]] && CopiedTo(v1, v2, p, c, 512, 0, full)
    ensures c in v2 && v2 == v0[c := v2[c]] && Part(v2[c], LowPart(v0[p]))
    ensures full ==> v2[c] == LowPart(v0[p])
  {
    if full {
      forall y | y in LowPart(v0[p]) ensures y in v2[c] { assert Before(y, 512, 0); }
    }
  }

  // ---------------------------------------------------------------------------
  // Whole runs
  // ---------------------------------------------------------------------------

  datatype Op =
    | Create
    | Touch(r: nat, virt: nat)
    | Spawn(r: nat)
    | Write(r: nat, virt: nat, k: Index, w: Word)
    | Exit(r: nat)

  /** What an operation amounts to when every address space has memory of its own. */
  datatype Event =
    | Created(r: nat)
    | Touched(r: nat, x: Ix)
    | Spawned(r: nat, c: nat, sp: Space)
    | Wrote(r: nat, x: Ix, k: Index, w: Word)
    | Exited(r: nat)
    | Nothing

  /** The reference machine: private memories, copied eagerly at fork. */
  ghost function Apply(v: Views, e: Event): Views {
    match e
    case Created(r) => v[r := imap[]]
    case Touched(r, x) => if r in v then Put(v, r, x, ZeroPage()) else v
    case Spawned(r, c, sp) => v[c := sp]
    case Wrote(r, x, k, w) => if r in v && x in v[r] && |v[r][x]| == 512 then Put(v, r, x, v[r][x][k := w]) else v
    case Exited(r) => v - {r}
    case Nothing => v
  }

  ghost predicate Matches(v: Views, e: Event, v': Views) { v' == Apply(v, e) }

  lemma ApplyNothing(v: Views, v': Views)
    requires v' == v
    ensures Matches(v, Nothing, v')
  {}

  lemma ApplyTouched(v: Views, r: nat, x: Ix, v': Views)
    requires r in v && v' == Put(v, r, x, ZeroPage())
    ensures Matches(v, Touched(r, x), v')
  {}

  lemma ApplySpawned(v: Views, r: nat, c: nat, v': Views)
    requires c in v' && v' == v[c := v'[c]]
    ensures Matches(v, Spawned(r, c, v'[c]), v')
  {}

  ghost function ApplyAll(v: Views, es: seq<Event>): Views {
    if |es| == 0 then v else Apply(ApplyAll(v, es[..|es| - 1]), es[|es| - 1])
  }

  /** Frames that are enough for an operation to go through. */
  function Cost(op: Op): nat {
    match op
    case Create => 3
    case Touch(_, _) => 4
    case Spawn(_) => 516
    case Write(_, _, _, _) => 1
    case Exit(_) => 0
  }

  /** What the reference machine does with an operation. Only the name of a new address space is left open. */
  ghost predicate Exact(v: Views, op: Op, e: Event) {
    match op
    case Create => e.Created? && e.r !in v
    case Touch(r, virt) => e == if r in v && IxOf(virt) !in v[r] && !HugeIx(IxOf(virt)) then Touched(r, IxOf(virt))
        else Nothing
    case Spawn(r) =>
      if r in v && |v| < 255 then e.Spawned? && e.r == r && e.c !in v && e.sp == LowPart(v[r]) else e.Nothing?
    case Write(r, virt, k, w) => e == if r in v && IxOf(virt) in v[r] then Wrote(r, IxOf(virt), k, w) else Nothing
    case Exit(r) => e == if r in v then Exited(r) else Nothing
  }

  /** What is left of it when frames run out: nothing, or a child with part of the pages. */
  ghost predicate Cut(v: Views, op: Op, e: Event) {
    e.Nothing? || (op.Spawn? && op.r in v && e.Spawned? && e.r == op.r && e.c !in v && Part(e.sp, LowPart(v[op.r])))
  }

  /** An operation from state `s` with views `v` to state `s'`: it takes no more frames than its cost, and does what the
      reference machine does unless there were fewer. */
  ghost predicate Outcome(s: State, v: Views, op: Op, e: Event, s': State) {
    && WellFormed(s) && WellFormed(s') && Free(s') + Cost(op) >= Free(s)
    && (Exact(v, op, e) || (Free(s) < Cost(op) && Cut(v, op, e)))
  }

  /** Whether the page of `virt` has a present entry, as the processor finds it. */
  method Present(m: Machine, r: nat, virt: nat) returns (b: bool)
    requires Good(m) && r in Procs(m.role)
    ensures b <==> Key(r, IxOf(virt)) in TransOf(m.S().mem, m.role)
    ensures b <==> IxOf(virt) in ViewsOf(m)[r]
  {
    assert RoleOk(m.S(), m.role, r);
    TransAt(m.S(), m.role, r, IxOf(virt));
    ViewAt(m.S(), m.role, r, IxOf(virt));
    var t := m.GetPte(r, virt);
    b := t != 0 && m.frames[t][IxOf(virt).d].p;
  }

  // Each kind of step, from what is known of its states.

  lemma OutcomeTouch(s: State, v: Views, r: nat, virt: nat, ok: bool, s': State)
    requires WellFormed(s) && WellFormed(s') && r in v && IxOf(virt) !in v[r] && Free(s') + 4 >= Free(s)
    requires ok <==> !HugeIx(IxOf(virt)) && Free(s) >= 1 + Missing(s.mem, r, IxOf(virt))
    ensures Outcome(s, v, Touch(r, virt), if ok then Touched(r, IxOf(virt)) else Nothing, s')
  {}

  lemma OutcomeSpawn(s: State, v: Views, r: nat, c: nat, v': Views, s': State)
    requires WellFormed(s) && WellFormed(s') && r in v && |v| < 255 && Free(s') + 515 >= Free(s)
      && (AllUsed(s') ==> Free(s') == 0)
    requires c == 0 ==> Free(s) < 3
    requires c != 0 ==> c !in v && c in v' && Part(v'[c], LowPart(v[r])) && (AllUsed(s') || v'[c] == LowPart(v[r]))
    ensures Outcome(s, v, Spawn(r), if c == 0 then Nothing else Spawned(r, c, v'[c]), s')
  {}

  lemma OutcomeWrite(s: State, v: Views, r: nat, virt: nat, k: Index, w: Word, done: bool, s': State, v': Views)
      returns (e: Event)
    requires Stored(s, v, r, IxOf(virt), k, w, done, s', v')
    ensures Matches(v, e, v') && Outcome(s, v, Write(r, virt, k, w), e, s')
  {
    e := if done then Wrote(r, IxOf(virt), k, w) else Nothing;
  }

  lemma OutcomeCreate(s: State, v: Views, r: nat, s': State, v': Views) returns (e: Event)
    requires WellFormed(s) && WellFormed(s') && (r == 0 <==> Free(s) < 3)
    requires if r == 0 then v' == v && Free(s') == Free(s)
      else r !in v && v' == v[r := imap[]] && Free(s') + 3 == Free(s)
    ensures Matches(v, e, v') && Outcome(s, v, Create, e, s')
  {
    e := if r == 0 then Nothing else Created(r);
  }

  lemma OutcomeExit(s: State, v: Views, r: nat, s': State)
    requires WellFormed(s) && WellFormed(s') && r in v && Free(s') >= Free(s)
    ensures Outcome(s, v, Exit(r), Exited(r), s')
  {}

  /** Operations after which every frame can be accounted for: no fork, touches below 1GB outside the 2MB entries, and
      only address spaces that were not there at the start. */
  predicate Frugal(op: Op, live0: set<nat>) {
    match op
    case Create => true
    case Touch(r, virt) => r !in live0 && Low(IxOf(virt)) && !HugeIx(IxOf(virt))
    case Spawn(_) => false
    case Write(r, _, _, _) => r !in live0
    case Exit(r) => r !in live0
  }

  /** An operation that is frugal and has its frames leaves every frame accounted for. */
  ghost predicate Conserves(used0: seq<bool>, live0: set<nat>, s: State, role: Roles, op: Op, s': State, role': Roles) {
    WellFormed(s) && Kept(used0, live0, s, role) && Frugal(op, live0) && Free(s) >= Cost(op) ==>
        Kept(used0, live0, s', role')
  }

  lemma ConservesNothing(used0: seq<bool>, live0: set<nat>, s: State, role: Roles, op: Op)
    ensures Conserves(used0, live0, s, role, op, s, role)
  {}

  lemma ConservesTouch(used0: seq<bool>, live0: set<nat>, s: State, role: Roles, r: nat, virt: nat, f: nat, ok: bool,
      s': State, role': Roles)
    requires Inv(s, role) && r in Procs(role) && Key(r, IxOf(virt)) !in TransOf(s.mem, role)
      && NewOn(role, role', r, IxOf(virt))
    requires ok <==> !HugeIx(IxOf(virt)) && Free(s) >= 1 + Missing(s.mem, r, IxOf(virt))
    requires ok ==> Managed(f) && !s.used[f] && MapsPage(Zeroed(s, f), role, s', role', r, IxOf(virt), Entry(f, 7))
    ensures Conserves(used0, live0, s, role, Touch(r, virt), s', role')
  {
    if Kept(used0, live0, s, role) && Frugal(Touch(r, virt), live0) && Free(s) >= 4 {
      KeptTouched(used0, live0, s, role, s', role', r, IxOf(virt), f);
    }
  }

  lemma ConservesCreate(used0: seq<bool>, live0: set<nat>, s: State, role: Roles, r: nat, s': State, role': Roles)
    requires WellFormed(s) && (r == 0 <==> Free(s) < 3) && (r != 0 ==> Creates(s, role, s', role', r))
    ensures Conserves(used0, live0, s, role, Create, s', role')
  {
    if Kept(used0, live0, s, role) && Free(s) >= 3 { KeptCreated(used0, live0, s, role, s', role', r); }
  }

  lemma ConservesWrite(used0: seq<bool>, live0: set<nat>, s: State, role: Roles, r: nat, virt: nat, k: Index, w: Word,
      s': State)
    requires r in Procs(role) && (Alone(s, role, r, IxOf(virt)) ==> SameFrames(s, s', role))
    ensures Conserves(used0, live0, s, role, Write(r, virt, k, w), s', role)
  {
    if Kept(used0, live0, s, role) && r !in live0 {
      KeptAlone(used0, live0, s, role, r, IxOf(virt));
      KeptSame(used0, live0, s, s', role);
    }
  }

  lemma ConservesExit(used0: seq<bool>, live0: set<nat>, s: State, role: Roles, r: nat, s': State, role': Roles)
    requires Destroys(s, role, s', role', r)
    ensures Conserves(used0, live0, s, role, Exit(r), s', role')
  {
    if Kept(used0, live0, s, role) && r !in live0 { KeptExit(used0, live0, s, role, s', role', r); }
  }

  method StepTouchNew(m: Machine, r: nat, virt: nat, ghost used0: seq<bool>, ghost live0: set<nat>)
      returns (ghost e: Event)
    requires Good(m) && r in Procs(m.role) && IxOf(virt) !in ViewsOf(m)[r]
    modifies m, m.bitmap, m.frames
    ensures Good(m) && Procs(m.role) == old(Procs(m.role))
    ensures Matches(old(ViewsOf(m)), e, ViewsOf(m)) && Outcome(old(m.S()), old(ViewsOf(m)), Touch(r, virt), e, m.S())
    ensures Conserves(used0, live0, old(m.S()), old(m.role), Touch(r, virt), m.S(), m.role)
  {
    ghost var ok;
    var f;
    ghost var s, role, v := m.S(), m.role, ViewsOf(m);
    ViewAt(s, role, r, IxOf(virt));
    f, ok := DemandPage(m, r, virt);
    e := TouchEvent(s, v, r, virt, ok, m.S(), ViewsOf(m));
    ConservesTouch(used0, live0, s, role, r, virt, f, ok, m.S(), m.role);
  }

  lemma TouchEvent(s: State, v: Views, r: nat, virt: nat, ok: bool, s': State, v': Views) returns (e: Event)
    requires WellFormed(s) && WellFormed(s') && r in v && IxOf(virt) !in v[r] && Free(s') + 4 >= Free(s)
    requires ok <==> !HugeIx(IxOf(virt)) && Free(s) >= 1 + Missing(s.mem, r, IxOf(virt))
    requires v' == if ok then Put(v, r, IxOf(virt), ZeroPage()) else v
    ensures Matches(v, e, v') && Outcome(s, v, Touch(r, virt), e, s')
  {
    e := if ok then Touched(r, IxOf(virt)) else Nothing;
    if ok { ApplyTouched(v, r, IxOf(virt), v'); } else { ApplyNothing(v, v'); }
    OutcomeTouch(s, v, r, virt, ok, s');
  }

  method StepTouch(m: Machine, r: nat, virt: nat, ghost used0: seq<bool>, ghost live0: set<nat>)
      returns (ghost e: Event)
    requires Good(m) && r in Procs(m.role)
    modifies m, m.bitmap, m.frames
    ensures Good(m) && Procs(m.role) == old(Procs(m.role))
    ensures Matches(old(ViewsOf(m)), e, ViewsOf(m)) && Outcome(old(m.S()), old(ViewsOf(m)), Touch(r, virt), e, m.S())
    ensures Conserves(used0, live0, old(m.S()), old(m.role), Touch(r, virt), m.S(), m.role)
  {
    ghost var s, v := m.S(), ViewsOf(m);
    var there := Present(m, r, virt);
    if !there {
      e := StepTouchNew(m, r, virt, used0, live0);
    } else {
      e := TouchedAgain(s, v, r, virt);
      ConservesNothing(used0, live0, s, m.role, Touch(r, virt));
    }
  }

  lemma TouchedAgain(s: State, v: Views, r: nat, virt: nat) returns (e: Event)
    requires WellFormed(s) && r in v && IxOf(virt) in v[r]
    ensures Matches(v, e, v) && Outcome(s, v, Touch(r, virt), e, s)
  {
    e := Nothing;
  }

  method StepCreate(m: Machine, ghost used0: seq<bool>, ghost live0: set<nat>) returns (r: nat, ghost e: Event)
    requires Good(m)
    modifies m, m.bitmap, m.frames
    ensures Good(m) && Procs(m.role) == if r == 0 then old(Procs(m.role)) else old(Procs(m.role)) + {r}
    ensures Matches(old(ViewsOf(m)), e, ViewsOf(m)) && Outcome(old(m.S()), old(ViewsOf(m)), Create, e, m.S())
    ensures Conserves(used0, live0, old(m.S()), old(m.role), Create, m.S(), m.role)
  {
    ghost var s, v, role := m.S(), ViewsOf(m), m.role;
    ViewCard(s, m.role);
    r := m.CreatePageDir();
    e := OutcomeCreate(s, v, r, m.S(), ViewsOf(m));
    ConservesCreate(used0, live0, s, role, r, m.S(), m.role);
  }

  method StepSpawn(m: Machine, p: nat) returns (c: nat, ghost e: Event)
    requires Good(m) && p in Procs(m.role) && |Procs(m.role)| < 255
    modifies m, m.bitmap, m.cowCnt, m.frames
    ensures Good(m) && Procs(m.role) == if c == 0 then old(Procs(m.role)) else old(Procs(m.role)) + {c}
    ensures Matches(old(ViewsOf(m)), e, ViewsOf(m)) && Outcome(old(m.S()), old(ViewsOf(m)), Spawn(p), e, m.S())
  {
    ghost var s := m.S();
    ViewCard(s, m.role);
    c := Fork(m, p);
    if c == 0 {
      e := Nothing;
      ApplyNothing(old(ViewsOf(m)), ViewsOf(m));
    } else {
      e := Spawned(p, c, ViewsOf(m)[c]);
      ApplySpawned(old(ViewsOf(m)), p, c, ViewsOf(m));
    }
    NoneFree(m.S());
    OutcomeSpawn(s, old(ViewsOf(m)), p, c, ViewsOf(m), m.S());
  }

  lemma ViewCard(s: State, role: Roles)
    ensures ViewOf(s, role).Keys == Procs(role)
  {}

  method StepWrite(m: Machine, r: nat, virt: nat, k: Index, w: Word, ghost used0: seq<bool>, ghost live0: set<nat>)
      returns (ghost e: Event)
    requires Good(m) && r in Procs(m.role)
    modifies m.bitmap, m.cowCnt, m.frames
    ensures Good(m)
    ensures Matches(old(ViewsOf(m)), e, ViewsOf(m))
      && Outcome(old(m.S()), old(ViewsOf(m)), Write(r, virt, k, w), e, m.S())
    ensures Conserves(used0, live0, old(m.S()), old(m.role), Write(r, virt, k, w), m.S(), m.role)
  {
    ghost var s, v := m.S(), ViewsOf(m);
    var done := WriteWord(m, r, virt, k, w);
    e := OutcomeWrite(s, v, r, virt, k, w, done, m.S(), ViewsOf(m));
    ConservesWrite(used0, live0, s, m.role, r, virt, k, w, m.S());
  }

  method StepExit(m: Machine, r: nat, ghost used0: seq<bool>, ghost live0: set<nat>) returns (ghost e: Event)
    requires Good(m) && r in Procs(m.role)
    modifies m, m.bitmap, m.cowCnt
    ensures Good(m) && Procs(m.role) == old(Procs(m.role)) - {r}
    ensures Matches(old(ViewsOf(m)), e, ViewsOf(m)) && Outcome(old(m.S()), old(ViewsOf(m)), Exit(r), e, m.S())
    ensures Conserves(used0, live0, old(m.S()), old(m.role), Exit(r), m.S(), m.role)
  {
    ViewCard(m.S(), m.role);
    ghost var s, role := m.S(), m.role;
    NotNull(s, m.role, r);
    m.FreeUserMemory(r);
    e := Exited(r);
    OutcomeExit(s, old(ViewsOf(m)), r, m.S());
    ConservesExit(used0, live0, s, role, r, m.S(), m.role);
  }

  /** One operation of the kernel against the reference machine; `live` are the address spaces the kernel knows. Since a
      time with bitmap `used0` and address spaces `live0`, it also keeps account of the frames. */
  method Step(m: Machine, op: Op, live: set<nat>, ghost used0: seq<bool>, ghost live0: set<nat>)
      returns (ghost e: Event, live': set<nat>)
    requires Good(m) && live == Procs(m.role)
    modifies m, m.bitmap, m.cowCnt, m.frames
    ensures Good(m) && live' == Procs(m.role)
    ensures Matches(old(ViewsOf(m)), e, ViewsOf(m)) && Outcome(old(m.S()), old(ViewsOf(m)), op, e, m.S())
    ensures Conserves(used0, live0, old(m.S()), old(m.role), op, m.S(), m.role)
  {
    e, live' := Nothing, live;
    ApplyNothing(ViewsOf(m), ViewsOf(m));
    ViewCard(m.S(), m.role);
    ConservesNothing(used0, live0, m.S(), m.role, op);
    match op {
      case Create =>
        var r;
        r, e := StepCreate(m, used0, live0);
        if r != 0 { live' := live + {r}; }
      case Touch(r, virt) =>
        if r in live { e := StepTouch(m, r, virt, used0, live0); }
      case Spawn(p) =>
        if p in live && |live| < 255 {
          var c;
          c, e := StepSpawn(m, p);
          if c != 0 { live' := live + {c}; }
        }
      case Write(r, virt, k, w) =>
        if r in live { e := StepWrite(m, r, virt, k, w, used0, live0); }
      case Exit(r) =>
        if r in live {
          e := StepExit(m, r, used0, live0);
          live' := live - {r};
        }
    }
  }

  ghost predicate PointOk(v0: Views, es: seq<Event>, s: State, role: Roles) {
    Inv(s, role) && ViewOf(s, role) == ApplyAll(v0, es)
  }

  ghost predicate Points(v0: Views, es: seq<Event>, ss: seq<State>, rs: seq<Roles>) {
    && |ss| == |rs| == |es| + 1
    && (forall i :: 0 <= i < |ss| ==> PointOk(v0, es[..i], ss[i], rs[i]))
  }

  ghost predicate Outcomes(v0: Views, ops: seq<Op>, es: seq<Event>, ss: seq<State>) {
    && |es| == |ops| && |ss| == |ops| + 1
    && (forall i {:trigger ops[i]} :: 0 <= i < |ops| ==>
        Outcome(ss[i], ApplyAll(v0, es[..i]), ops[i], es[i], ss[i + 1]))
  }

  /** A run through states `ss` with ownership `rs`: at every point the invariant holds and every address space
      reads what the reference machine says, and every event is the outcome of its operation. */
  ghost predicate Follows(v0: Views, ops: seq<Op>, es: seq<Event>, ss: seq<State>, rs: seq<Roles>) {
    Points(v0, es, ss, rs) && Outcomes(v0, ops, es, ss)
  }

  lemma PointsStep(v0: Views, es: seq<Event>, ss: seq<State>, rs: seq<Roles>, e: Event, s: State, role: Roles)
    requires Points(v0, es, ss, rs) && PointOk(v0, es + [e], s, role)
    ensures Points(v0, es + [e], ss + [s], rs + [role])
  {
    var es', ss', rs' := es + [e], ss + [s], rs + [role];
    forall i | 0 <= i < |ss'| ensures PointOk(v0, es'[..i], ss'[i], rs'[i]) {
      if i < |ss| { assert es'[..i] == es[..i]; } else { assert es'[..i] == es'; }
    }
  }

  lemma OutcomesStep(v0: Views, ops: seq<Op>, es: seq<Event>, ss: seq<State>, op: Op, e: Event, s: State)
    requires Outcomes(v0, ops, es, ss) && Outcome(ss[|ops|], ApplyAll(v0, es), op, e, s)
    ensures Outcomes(v0, ops + [op], es + [e], ss + [s])
  {
    var ops', es', ss' := ops + [op], es + [e], ss + [s];
    forall i {:trigger ops'[i]} | 0 <= i < |ops'| ensures Outcome(ss'[i], ApplyAll(v0, es'[..i]), ops'[i], es'[i],
        ss'[i + 1]) {
      if i < |ops| { assert es'[..i] == es[..i] && ops'[i] == ops[i]; } else { assert es'[..i] == es; }
    }
  }

  function CostAll(ops: seq<Op>): nat {
    if |ops| == 0 then 0 else CostAll(ops[..|ops| - 1]) + Cost(ops[|ops| - 1])
  }

  /** As long as `free` frames cover the operations so far, every event is exactly the reference machine's. */
  ghost predicate Exactly(v0: Views, ops: seq<Op>, es: seq<Event>, free: nat) {
    |es| == |ops| && forall i {:trigger ops[i]} :: 0 <= i < |ops| && free >= CostAll(ops[..i + 1]) ==>
        Exact(ApplyAll(v0, es[..i]), ops[i], es[i])
  }

  lemma {:induction false} Spent(v0: Views, ops: seq<Op>, es: seq<Event>, ss: seq<State>, n: nat)
    requires Outcomes(v0, ops, es, ss) && n <= |ops| && WellFormed(ss[0])
    ensures WellFormed(ss[n]) && Free(ss[n]) + CostAll(ops[..n]) >= Free(ss[0])
    decreases n
  {
    if n > 0 {
      Spent(v0, ops, es, ss, n - 1);
      assert ops[n - 1] == ops[..n][n - 1] && ops[..n][..n - 1] == ops[..n - 1];
      assert Outcome(ss[n - 1], ApplyAll(v0, es[..n - 1]), ops[n - 1], es[n - 1], ss[n]);
    }
  }

  /** Frames that cover a run from its start make every event exact. */
  lemma OutcomesExact(v0: Views, ops: seq<Op>, es: seq<Event>, ss: seq<State>)
    requires Outcomes(v0, ops, es, ss) && WellFormed(ss[0])
    ensures Exactly(v0, ops, es, Free(ss[0]))
  {
    forall i {:trigger ops[i]} | 0 <= i < |ops|
        && Free(ss[0]) >= CostAll(ops[..i + 1]) ensures Exact(ApplyAll(v0, es[..i]), ops[i], es[i]) {
      Spent(v0, ops, es, ss, i);
      assert ops[..i + 1][..i] == ops[..i];
      assert Outcome(ss[i], ApplyAll(v0, es[..i]), ops[i], es[i], ss[i + 1]);
    }
  }

  // Conservation over runs without fork.

  /** The first n operations are frugal and had their frames. */
  ghost predicate Thrifty(live0: set<nat>, ops: seq<Op>, ss: seq<State>, n: nat) {
    n <= |ops| && n <= |ss| && forall i {:trigger ops[i]} :: 0 <= i < n ==>
        Frugal(ops[i], live0) && WellFormed(ss[i]) && Free(ss[i]) >= Cost(ops[i])
  }

  /** At every point up to which the run was thrifty, the frames taken since its start are exactly those of the address
      spaces created since. */
  ghost predicate Conserved(used0: seq<bool>, live0: set<nat>, ops: seq<Op>, ss: seq<State>, rs: seq<Roles>) {
    && |ss| == |rs| == |ops| + 1
    && forall n {:trigger Thrifty(live0, ops, ss, n)} :: 0 <= n <= |ops| && Thrifty(live0, ops, ss, n) ==>
        Kept(used0, live0, ss[n], rs[n])
  }

  lemma ConservedStart(s: State, role: Roles)
    ensures Conserved(s.used, Procs(role), [], [s], [role])
  {
    KeptStart(s, role);
  }

  lemma ThriftyFront(live0: set<nat>, ops: seq<Op>, ss: seq<State>, op: Op, s: State, n: nat)
    requires |ss| == |ops| + 1 && n <= |ops| && Thrifty(live0, ops + [op], ss + [s], n)
    ensures Thrifty(live0, ops, ss, n)
  {
    var ops', ss' := ops + [op], ss + [s];
    forall i {:trigger ops[i]} | 0 <= i < n ensures Frugal(ops[i], live0) && WellFormed(ss[i])
        && Free(ss[i]) >= Cost(ops[i]) {
      assert ops'[i] == ops[i] && ss'[i] == ss[i];
    }
  }

  lemma ThriftyLess(live0: set<nat>, ops: seq<Op>, ss: seq<State>, n: nat, k: nat)
    requires Thrifty(live0, ops, ss, n) && k < n
    ensures Thrifty(live0, ops, ss, k) && Frugal(ops[k], live0) && WellFormed(ss[k]) && Free(ss[k]) >= Cost(ops[k])
  {
    forall i {:trigger ops[i]} | 0 <= i < n
      ensures Frugal(ops[i], live0) && WellFormed(ss[i]) && Free(ss[i]) >= Cost(ops[i]) {}
  }

  lemma ConservedStep(used0: seq<bool>, live0: set<nat>, ops: seq<Op>, ss: seq<State>, rs: seq<Roles>, op: Op,
      s: State, role: Roles)
    requires Conserved(used0, live0, ops, ss, rs) && Conserves(used0, live0, ss[|ops|], rs[|ops|], op, s, role)
    ensures Conserved(used0, live0, ops + [op], ss + [s], rs + [role])
  {
    var ops', ss', rs' := ops + [op], ss + [s], rs + [role];
    forall n {:trigger Thrifty(live0, ops', ss', n)} | 0 <= n <= |ops'|
        && Thrifty(live0, ops', ss', n) ensures Kept(used0, live0, ss'[n], rs'[n]) {
      if n <= |ops| {
        ThriftyFront(live0, ops, ss, op, s, n);
      } else {
        ThriftyLess(live0, ops', ss', n, |ops|);
        ThriftyFront(live0, ops, ss, op, s, |ops|);
        assert ops'[|ops|] == op && ss'[|ops|] == ss[|ops|];
      }
    }
  }

  /** What the operations since the last point without new address spaces may have taken. */
  ghost function Outstanding(v0: Views, ops: seq<Op>, es: seq<Event>, n: nat): nat
    requires n <= |ops| && n <= |es|
  {
    if n == 0 || ApplyAll(v0, es[..n]).Keys == v0.Keys then 0 else Outstanding(v0, ops, es, n - 1) + Cost(ops[n - 1])
  }

  /** At every operation there are frames for it, counted anew whenever no new address space is left. */
  ghost predicate Affordable(v0: Views, ops: seq<Op>, es: seq<Event>, free: nat) {
    |es| == |ops| && forall i {:trigger ops[i]} :: 0 <= i < |ops| ==>
        Frugal(ops[i], v0.Keys) && Outstanding(v0, ops, es, i) + Cost(ops[i]) <= free
  }

  lemma PointKeys(v0: Views, es: seq<Event>, ss: seq<State>, rs: seq<Roles>, n: nat)
    requires Points(v0, es, ss, rs) && n <= |es|
    ensures ApplyAll(v0, es[..n]).Keys == Procs(rs[n]) && Inv(ss[n], rs[n])
  {
    assert PointOk(v0, es[..n], ss[n], rs[n]);
    ViewCard(ss[n], rs[n]);
  }

  /** A thrifty run that has no new address space left has its frames back. */
  lemma Returned(v0: Views, ops: seq<Op>, es: seq<Event>, ss: seq<State>, rs: seq<Roles>, n: nat)
    requires Points(v0, es, ss, rs) && Conserved(ss[0].used, v0.Keys, ops, ss, rs) && n <= |ops| == |es|
      && Thrifty(v0.Keys, ops, ss, n)
    ensures WellFormed(ss[n]) && (ApplyAll(v0, es[..n]).Keys == v0.Keys ==> ss[n].used == ss[0].used)
  {
    PointKeys(v0, es, ss, rs, n);
    if ApplyAll(v0, es[..n]).Keys == v0.Keys { KeptNobody(ss[0].used, ss[n], rs[n]); }
  }

  lemma ThriftyNext(live0: set<nat>, ops: seq<Op>, ss: seq<State>, n: nat)
    requires Thrifty(live0, ops, ss, n) && n < |ops| && n < |ss| && WellFormed(ss[n])
    requires Frugal(ops[n], live0) && Free(ss[n]) >= Cost(ops[n])
    ensures Thrifty(live0, ops, ss, n + 1)
  {}

  lemma {:induction false} Afforded(v0: Views, ops: seq<Op>, es: seq<Event>, ss: seq<State>, rs: seq<Roles>, n: nat)
    requires Points(v0, es, ss, rs) && Outcomes(v0, ops, es, ss) && WellFormed(ss[0])
      && Conserved(ss[0].used, v0.Keys, ops, ss, rs)
    requires Affordable(v0, ops, es, Free(ss[0])) && n <= |ops|
    ensures Thrifty(v0.Keys, ops, ss, n) && WellFormed(ss[n])
      && Free(ss[n]) + Outstanding(v0, ops, es, n) >= Free(ss[0])
    decreases n
  {
    if n > 0 {
      Afforded(v0, ops, es, ss, rs, n - 1);
      var op := ops[n - 1];
      assert Frugal(op, v0.Keys) && Outstanding(v0, ops, es, n - 1) + Cost(op) <= Free(ss[0]);
      ThriftyNext(v0.Keys, ops, ss, n - 1);
      assert Outcome(ss[n - 1], ApplyAll(v0, es[..n - 1]), op, es[n - 1], ss[n]);
      Returned(v0, ops, es, ss, rs, n);
    }
  }

  /** A run without fork that can afford each of its operations does exactly what the reference machine does, however
      long it is, and has given every frame back whenever no new address space is left. */
  ghost predicate Lasting(v0: Views, ops: seq<Op>, es: seq<Event>, ss: seq<State>, free: nat) {
    Affordable(v0, ops, es, free) ==>
      && |ss| == |ops| + 1
      && (forall i {:trigger ops[i]} :: 0 <= i < |ops| ==> Exact(ApplyAll(v0, es[..i]), ops[i], es[i]))
      && (forall n {:trigger ss[n]} :: 0 <= n <= |ops| && ApplyAll(v0, es[..n]).Keys == v0.Keys ==>
          ss[n].used == ss[0].used)
  }

  lemma LongRuns(v0: Views, ops: seq<Op>, es: seq<Event>, ss: seq<State>, rs: seq<Roles>)
    requires Follows(v0, ops, es, ss, rs) && WellFormed(ss[0]) && Conserved(ss[0].used, v0.Keys, ops, ss, rs)
    ensures Lasting(v0, ops, es, ss, Free(ss[0]))
  {
    if Affordable(v0, ops, es, Free(ss[0])) {
      forall i {:trigger ops[i]} | 0 <= i < |ops| ensures Exact(ApplyAll(v0, es[..i]), ops[i], es[i]) {
        Afforded(v0, ops, es, ss, rs, i);
        assert Outstanding(v0, ops, es, i) + Cost(ops[i]) <= Free(ss[0]);
        assert Outcome(ss[i], ApplyAll(v0, es[..i]), ops[i], es[i], ss[i + 1]);
      }
      forall n {:trigger ss[n]} | 0 <= n <= |ops|
          && ApplyAll(v0, es[..n]).Keys == v0.Keys ensures ss[n].used == ss[0].used {
        Afforded(v0, ops, es, ss, rs, n);
        Returned(v0, ops, es, ss, rs, n);
      }
    }
  }

  /** Every run from any good state refines the reference machine, exactly for as long as the frames free at the start
      cover its operations; without fork, for as long as they cover those since no new address space was left. */
  method Run(m: Machine, ops: seq<Op>, live: set<nat>)
    returns (live': set<nat>, ghost es: seq<Event>, ghost ss: seq<State>, ghost rs: seq<Roles>)
    requires Good(m) && live == Procs(m.role)
    modifies m, m.bitmap, m.cowCnt, m.frames
    ensures Good(m) && live' == Procs(m.role)
    ensures Follows(old(ViewsOf(m)), ops, es, ss, rs)
    ensures ss[0] == old(m.S()) && ss[|ops|] == m.S() && rs[0] == old(m.role) && rs[|ops|] == m.role
    ensures ViewsOf(m) == ApplyAll(old(ViewsOf(m)), es)
    ensures Exactly(old(ViewsOf(m)), ops, es, old(Free(m.S())))
    ensures Lasting(old(ViewsOf(m)), ops, es, ss, old(Free(m.S())))
  {
    ghost var used0, live0 := m.S().used, live;
    live', es, ss, rs := live, [], [m.S()], [m.role];
    ghost var v0 := ViewsOf(m);
    ViewCard(m.S(), m.role);
    ConservedStart(m.S(), m.role);
    for n := 0 to |ops|
      invariant Good(m) && live' == Procs(m.role)
      invariant Follows(v0, ops[..n], es, ss, rs) && ss[0] == old(m.S()) && rs[0] == old(m.role)
      invariant Conserved(used0, live0, ops[..n], ss, rs)
      invariant ss[n] == m.S() && rs[n] == m.role
    {
      ghost var e;
      e, live' := Step(m, ops[n], live', used0, live0);
      RunStep(v0, ops, n, es, ss, rs, e, m.S(), m.role);
      ConservedStep(used0, live0, ops[..n], ss, rs, ops[n], m.S(), m.role);
      es, ss, rs := es + [e], ss + [m.S()], rs + [m.role];
    }
    assert ops[..|ops|] == ops && es[..|es|] == es;
    OutcomesExact(v0, ops, es, ss);
    LongRuns(v0, ops, es, ss, rs);
  }

  lemma RunStep(v0: Views, ops: seq<Op>, n: nat, es: seq<Event>, ss: seq<State>, rs: seq<Roles>, e: Event, s: State,
      role: Roles)
    requires n < |ops| && Follows(v0, ops[..n], es, ss, rs) && Inv(s, role)
    requires Matches(ViewOf(ss[n], rs[n]), e, ViewOf(s, role)) && Outcome(ss[n], ViewOf(ss[n], rs[n]), ops[n], e, s)
    ensures ops[..n + 1] == ops[..n] + [ops[n]] && Follows(v0, ops[..n + 1], es + [e], ss + [s], rs + [role])
  {
    LastPoint(v0, es, ss, rs, n);
    assert ops[..n + 1] == ops[..n] + [ops[n]];
    NextPoint(v0, es, e, s, role);
    PointsStep(v0, es, ss, rs, e, s, role);
    OutcomesStep(v0, ops[..n], es, ss, ops[n], e, s);
  }

  lemma LastPoint(v0: Views, es: seq<Event>, ss: seq<State>, rs: seq<Roles>, n: nat)
    requires Points(v0, es, ss, rs) && n == |es|
    ensures ViewOf(ss[n], rs[n]) == ApplyAll(v0, es)
  {
    assert PointOk(v0, es[..n], ss[n], rs[n]);
    assert es[..n] == es;
  }

  lemma NextPoint(v0: Views, es: seq<Event>, e: Event, s: State, role: Roles)
    requires Inv(s, role) && Matches(ApplyAll(v0, es), e, ViewOf(s, role))
    ensures PointOk(v0, es + [e], s, role)
  {
    assert (es + [e])[..|es|] == es;
  }

  /** Memory at boot: the page directories of 1-4GB filled in, the frames below 8MB taken, no counter set. */
  ghost predicate Booted(s: State, boot: seq<Page>) {
    && WellFormed(s) && BootOk(s.mem) && |boot| == TOTAL_FRAMES
    && (forall f: nat :: f < TOTAL_FRAMES && !IsBootPd(f) ==> s.mem[f] == boot[f])
    && forall f :: 0 <= f < TOTAL_FRAMES ==> s.used[f] == (f < RESERVED) && s.cow[f] == 0
  }

  lemma {:induction false} FreeFromAll(used: seq<bool>, k: nat)
    requires k <= |used| && forall f :: k <= f < |used| ==> !used[f]
    ensures FreeFrom(used, k) == |used| - k
    decreases |used| - k
  {
    if k < |used| { FreeFromAll(used, k + 1); }
  }

  lemma BootFree(s: State)
    requires WellFormed(s) && forall f :: 0 <= f < TOTAL_FRAMES ==> s.used[f] == (f < RESERVED)
    ensures Free(s) == 14336
  {
    FreeFromAll(s.used, RESERVED);
  }

  /** From boot: every run of the machine follows the reference machine that starts with no address spaces. */
  method BootAndRun(boot: seq<Page>, ops: seq<Op>)
    returns (m: Machine, live: set<nat>, ghost es: seq<Event>, ghost ss: seq<State>, ghost rs: seq<Roles>)
    requires |boot| == TOTAL_FRAMES
    ensures Good(m) && live == Procs(m.role) && Follows(map[], ops, es, ss, rs) && ViewsOf(m) == ApplyAll(map[], es)
    ensures Booted(ss[0], boot) && rs[0] == map[] && ss[|ops|] == m.S() && rs[|ops|] == m.role
    ensures Exactly(map[], ops, es, 14336) && Lasting(map[], ops, es, ss, 14336)
  {
    m := new Machine(boot);
    BootFree(m.S());
    assert Procs(m.role) == {};
    assert ViewsOf(m) == map[];
    live, es, ss, rs := Run(m, ops, {});
  }

  // ---------------------------------------------------------------------------
  // Translation and conservation
  // ---------------------------------------------------------------------------

  /** After a mapping took effect, translation gives the new frame at its page and what it gave before at every
      other page of every address space, 2MB pages included. */
  lemma MapRefines(s: State, role: Roles, s': State, role': Roles, r: nat, virt: nat, f: nat, low: bv12, q: nat,
      other: nat)
    requires virt < 0x1_0000_0000_0000 && other < 0x1_0000_0000_0000
    requires MapsPage(s, role, s', role', r, IxOf(virt), Entry(f, low | 1)) && IsProc(role, q)
    ensures PhysOf(s'.mem, r, virt) == f * 4096
    ensures q != r || other / 4096 != virt / 4096 ==> PhysOf(s'.mem, q, other) == PhysOf(s.mem, q, other)
  {
    IxInjective(virt, other);
    PhysMapped(s', r, virt, IxOf(virt), f, low);
    MapsSame(s, role, s', role', r, IxOf(virt), Entry(f, low | 1));
    PhysSame(s.mem, s'.mem, role, q, other, Key(r, IxOf(virt)));
  }

  lemma PhysMapped(s: State, r: nat, virt: nat, x: Ix, f: nat, low: bv12)
    requires x == IxOf(virt) && Walk(s.mem, r, x) == Mapped(Entry(f, low | 1))
    ensures PhysOf(s.mem, r, virt) == f * 4096
  {}

  lemma MapsSame(s: State, role: Roles, s': State, role': Roles, r: nat, x: Ix, w: Word)
    requires MapsPage(s, role, s', role', r, x, w)
    ensures Walk(s'.mem, r, x) == Mapped(w) && forall k: Key :: k != Key(r, x) ==> SameAt(s.mem, s'.mem, role, k)
  {}

  lemma PhysSame(mem: seq<Page>, mem': seq<Page>, role: Roles, q: nat, virt: nat, l: Key)
    requires IsProc(role, q) && forall k: Key :: k != l ==> SameAt(mem, mem', role, k)
    ensures Key(q, IxOf(virt)) != l ==> PhysOf(mem', q, virt) == PhysOf(mem, q, virt)
  {
    assert Key(q, IxOf(virt)) != l ==> SameAt(mem, mem', role, Key(q, IxOf(virt)));
  }

  lemma MapKeeps(s0: State, r0: Roles, s1: State, r1: Roles, r: nat, x: Ix, w: Word)
    requires Tree(s0, r0) && IsProc(r0, r) && (MapsPage(s0, r0, s1, r1, r, x, w) || Grows(s0, r0, s1, r1))
    ensures IsProc(r1, r) && r != 0
  {
    assert RoleOk(s0, r0, r);
    SameProc(r0, r1, r);
  }

  ghost predicate MapOutcome(s0: State, r0: Roles, s1: State, r1: Roles, r: nat, x: Ix, w: Word) {
    IsProc(r0, r) && Tree(s0, r0) && (MapsPage(s0, r0, s1, r1, r, x, w) || Grows(s0, r0, s1, r1))
  }

  /** Unmapping a page that was unmapped before the map call. */
  method UnmapAgain(m: Machine, r: nat, virt: nat, ghost s0: State, ghost r0: Roles, ghost w: Word)
    requires m.Valid() && Walk(s0.mem, r, IxOf(virt)) == Unmapped && MapOutcome(s0, r0, m.S(), m.role, r, IxOf(virt), w)
    modifies m.frames
    ensures m.Valid() && m.role == old(m.role) && SameWalks(s0, r0, m.S(), m.role)
  {
    ghost var s1 := m.S();
    MapKeeps(s0, r0, s1, m.role, r, IxOf(virt), w);
    m.UnmapPage(r, virt);
    ghost var s2 := m.S();
    Undone(s0, r0, s1, m.role, s2, r, IxOf(virt), w);
  }

  lemma Undone(s0: State, r0: Roles, s1: State, r1: Roles, s2: State, r: nat, x: Ix, w: Word)
    requires Walk(s0.mem, r, x) == Unmapped && MapOutcome(s0, r0, s1, r1, r, x, w) && UnmapsPage(s1, r1, s2, r, x)
    ensures SameWalks(s0, r0, s2, r1)
  {
    UndoMap(s0, r0, s1, r1, s2, r, x, w);
  }

  /** Mapping an unmapped page and unmapping it again leaves every translation as it was. */
  method MapThenUnmap(m: Machine, r: nat, virt: nat, f: nat, low: bv12) returns (ghost ok: bool)
    requires m.Valid() && IsProc(m.role, r) && f !in m.role && (Managed(f) ==> m.S().used[f])
    requires Walk(m.S().mem, r, IxOf(virt)) == Unmapped
    modifies m, m.bitmap, m.frames
    ensures m.Valid() && SameWalks(old(m.S()), old(m.role), m.S(), m.role)
  {
    ghost var s0, r0 := m.S(), m.role;
    ok := m.MapPage(r, virt, f, low);
    assert MapOutcome(s0, r0, m.S(), m.role, r, IxOf(virt), Entry(f, low | 1));
    UnmapAgain(m, r, virt, s0, r0, Entry(f, low | 1));
  }

  /** One of the addresses lies where every address space has a 2MB entry. */
  predicate TouchesHuge(virts: seq<nat>) { exists v :: v in virts && HugeSlot(IxOf(v).c) }

  /** Touches the pages of `virts` that are not there yet. A touch below 1GB takes at most a page and a page table. */
  method TouchAll(m: Machine, r: nat, virts: seq<nat>, ghost used0: seq<bool>, ghost live0: set<nat>)
    requires Good(m) && IsProc(m.role, r) && r !in live0 && Kept(used0, live0, m.S(), m.role)
    requires forall v :: v in virts ==> Low(IxOf(v))
    modifies m, m.bitmap, m.frames
    ensures Good(m) && IsProc(m.role, r) && Procs(m.role) == old(Procs(m.role))
    ensures old(Free(m.S())) >= 2 * |virts| && !TouchesHuge(virts) ==> Kept(used0, live0, m.S(), m.role)
  {
    ghost var enough := Free(m.S()) >= 2 * |virts| && !TouchesHuge(virts);
    for i := 0 to |virts|
      invariant Good(m) && IsProc(m.role, r) && Procs(m.role) == old(Procs(m.role))
      invariant enough ==> Kept(used0, live0, m.S(), m.role) && Free(m.S()) >= 2 * (|virts| - i)
    {
      assert virts[i] in virts;
      TouchOne(m, r, virts[i], used0, live0);
    }
  }

  /** One touch; if frames allow, the frames taken are exactly those the address space now owns. */
  method TouchOne(m: Machine, r: nat, virt: nat, ghost used0: seq<bool>, ghost live0: set<nat>)
    requires Good(m) && IsProc(m.role, r) && r !in live0 && Low(IxOf(virt))
    modifies m, m.bitmap, m.frames
    ensures Good(m) && IsProc(m.role, r) && Procs(m.role) == old(Procs(m.role))
    ensures Free(m.S()) + 2 >= old(Free(m.S()))
    ensures old(Kept(used0, live0, m.S(), m.role)) && old(Free(m.S())) >= 2 && !HugeSlot(IxOf(virt).c) ==>
      Kept(used0, live0, m.S(), m.role)
  {
    assert r in Procs(m.role);
    var there := Present(m, r, virt);
    if !there { TouchNew(m, r, virt, used0, live0); }
  }

  method TouchNew(m: Machine, r: nat, virt: nat, ghost used0: seq<bool>, ghost live0: set<nat>)
    requires Good(m) && IsProc(m.role, r) && r !in live0 && Low(IxOf(virt))
    requires Key(r, IxOf(virt)) !in TransOf(m.S().mem, m.role)
    modifies m, m.bitmap, m.frames
    ensures Good(m) && IsProc(m.role, r) && Procs(m.role) == old(Procs(m.role))
    ensures Free(m.S()) + 2 >= old(Free(m.S()))
    ensures old(Kept(used0, live0, m.S(), m.role)) && old(Free(m.S())) >= 2 && !HugeSlot(IxOf(virt).c) ==>
      Kept(used0, live0, m.S(), m.role)
  {
    ghost var s, role, x := m.S(), m.role, IxOf(virt);
    assert r in Procs(role);
    LowPdThere(s, role, r, x);
    ghost var ok;
    var f;
    f, ok := DemandPage(m, r, virt);
    SameProc(role, m.role, r);
    if ok && Kept(used0, live0, s, role) { KeptTouched(used0, live0, s, role, m.S(), m.role, r, x, f); }
  }

  lemma BelowGigabyte(v: nat)
    requires v < 0x4000_0000
    ensures Low(IxOf(v))
  {}

  method TouchTeardown(m: Machine, r: nat, virts: seq<nat>, ghost used0: seq<bool>, ghost live0: set<nat>)
    requires Good(m) && r !in live0 && Procs(m.role) == live0 + {r} && Kept(used0, live0, m.S(), m.role)
    requires forall v :: v in virts ==> Low(IxOf(v))
    modifies m, m.bitmap, m.cowCnt, m.frames
    ensures Good(m) && Procs(m.role) == live0
    ensures old(Free(m.S())) >= 2 * |virts| && !TouchesHuge(virts) ==> m.S().used == used0
  {
    ghost var enough := Free(m.S()) >= 2 * |virts| && !TouchesHuge(virts);
    assert r in Procs(m.role);
    TouchAll(m, r, virts, used0, live0);
    ghost var s1, r1 := m.S(), m.role;
    NotNull(s1, r1, r);
    m.FreeUserMemory(r);
    assert live0 + {r} - {r} == live0;
    if enough {
      KeptExit(used0, live0, s1, r1, m.S(), m.role, r);
      KeptNobody(used0, m.S(), m.role);
    }
  }

  /** Without fork, creating an address space, touching pages below 1GB outside the 2MB entries and tearing it down
      gives every frame back, whenever there were frames for it: three for the space, two for each touch. */
  method CreateTouchTeardown(m: Machine, virts: seq<nat>) returns (before: nat, after: nat)
    requires Good(m) && forall v :: v in virts ==> v < 0x4000_0000
    modifies m, m.bitmap, m.cowCnt, m.frames
    ensures Good(m) && Procs(m.role) == old(Procs(m.role)) && before == old(Free(m.S())) && after == Free(m.S())
    ensures old(Free(m.S())) >= 3 + 2 * |virts| && !TouchesHuge(virts) ==>
      m.S().used == old(m.S().used) && before == after
  {
    ghost var s0, r0 := m.S(), m.role;
    before := m.FreeCount();
    KeptStart(s0, r0);
    var r := m.CreatePageDir();
    if r != 0 {
      KeptCreated(s0.used, Procs(r0), s0, r0, m.S(), m.role, r);
      forall v | v in virts ensures Low(IxOf(v)) { BelowGigabyte(v); }
      TouchTeardown(m, r, virts, s0.used, Procs(r0));
    }
    after := m.FreeCount();
  }
}
