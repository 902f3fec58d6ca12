/** The physical and virtual memory manager (src/kernel/vmm.c), updated in place.
    Frames are named by number; address = number * 4096, and frame 0 stands for a null result. */
module Vmm {
  import opened Paging
  import opened Cow
  import opened Spaces
  import opened NewDir
  import opened Steps
  import opened Teardown
  import opened Counters

  // ---------------------------------------------------------------------------
  // The frame bitmap
  // ---------------------------------------------------------------------------

  /** `1 << k` on a byte. */
  function BitMask(k: nat): bv8
    requires k < 8
  {
    if k == 0 then 1 else if k == 1 then 2 else if k == 2 then 4 else if k == 3 then 8
    else if k == 4 then 16 else if k == 5 then 32 else if k == 6 then 64 else 128
  }

  predicate Bit(c: bv8, k: nat)
    requires k < 8
  {
    c & BitMask(k) != 0
  }

  lemma BitOr(c: bv8, k: nat, j: nat)
    requires k < 8 && j < 8
    ensures Bit(c | BitMask(k), j) == (j == k || Bit(c, j))
  {}

  lemma BitAndNot(c: bv8, k: nat, j: nat)
    requires k < 8 && j < 8
    ensures Bit(c & !BitMask(k), j) == (j != k && Bit(c, j))
  {}

  /** The eight flags of a bitmap byte, lowest bit first. */
  function ByteBits(c: bv8): (u: seq<bool>)
    ensures |u| == 8
  {
    seq(8, k requires 0 <= k < 8 => Bit(c, k))
  }

  function Bits(b: seq<bv8>): (u: seq<bool>)
    ensures |u| == 8 * |b|
  {
    if |b| == 0 then [] else Bits(b[..|b| - 1]) + ByteBits(b[|b| - 1])
  }

  lemma {:induction false} BitsIndex(b: seq<bv8>, i: nat, k: nat)
    requires i < |b| && k < 8
    ensures Bits(b)[8 * i + k] == Bit(b[i], k)
  {
    if i < |b| - 1 {
      BitsIndex(b[..|b| - 1], i, k);
    }
  }

  lemma {:induction false} BitsPut(b: seq<bv8>, i: nat, c: bv8, k: nat, v: bool)
    requires i < |b| && k < 8 && ByteBits(c) == ByteBits(b[i])[k := v]
    ensures Bits(b[i := c]) == Bits(b)[8 * i + k := v]
  {
    if i < |b| - 1 {
      BitsPut(b[..|b| - 1], i, c, k, v);
      assert b[i := c][..|b| - 1] == b[..|b| - 1][i := c];
    } else {
      assert b[i := c][..|b| - 1] == b[..|b| - 1];
    }
  }

  method OrBit(c: bv8, k: nat) returns (d: bv8)
    requires k < 8
    ensures ByteBits(d) == ByteBits(c)[k := true]
  {
    d := c | BitMask(k);
    forall j: nat | j < 8 ensures ByteBits(d)[j] == ByteBits(c)[k := true][j] { BitOr(c, k, j); }
  }

  method ClearBit(c: bv8, k: nat) returns (d: bv8)
    requires k < 8
    ensures ByteBits(d) == ByteBits(c)[k := false]
  {
    d := c & !BitMask(k);
    forall j: nat | j < 8 ensures ByteBits(d)[j] == ByteBits(c)[k := false][j] { BitAndNot(c, k, j); }
  }

  /** Number of free frames in [k, TOTAL_FRAMES). */
  function FreeFrom(used: seq<bool>, k: nat): nat
    requires k <= |used|
    decreases |used| - k
  {
    if k == |used| then 0 else FreeFrom(used, k + 1) + if used[k] then 0 else 1
  }

  lemma {:induction false} FreeFromTake(used: seq<bool>, k: nat, p: nat)
    requires k <= |used| && k <= p < |used| && !used[p]
    ensures FreeFrom(used, k) == FreeFrom(used[p := true], k) + 1
    decreases |used| - k
  {
    if k < p { FreeFromTake(used, k + 1, p); } else { FreeFromSame(used, used[p := true], k + 1); }
  }

  lemma {:induction false} FreeFromSame(u: seq<bool>, v: seq<bool>, k: nat)
    requires k <= |u| == |v| && u[k..] == v[k..]
    ensures FreeFrom(u, k) == FreeFrom(v, k)
    decreases |u| - k
  {
    if k < |u| {
      assert u[k] == u[k..][0] && v[k] == v[k..][0];
      assert u[k + 1..] == u[k..][1..] && v[k + 1..] == v[k..][1..];
      FreeFromSame(u, v, k + 1);
    }
  }

  /** No frame is left exactly when every managed frame is marked. */
  lemma {:induction false} FreeFromZero(used: seq<bool>, k: nat)
    requires k <= |used|
    ensures FreeFrom(used, k) == 0 <==> forall f :: k <= f < |used| ==> used[f]
    decreases |used| - k
  {
    if k < |used| { FreeFromZero(used, k + 1); }
  }

  /** Free managed frames. */
  function Free(s: State): nat
    requires WellFormed(s)
  {
    FreeFrom(s.used, RESERVED)
  }

  lemma {:induction false} FreeFromMore(u: seq<bool>, v: seq<bool>, k: nat)
    requires k <= |u| == |v| && forall f :: k <= f < |u| && v[f] ==> u[f]
    ensures FreeFrom(v, k) >= FreeFrom(u, k)
    decreases |u| - k
  {
    if k < |u| { FreeFromMore(u, v, k + 1); }
  }

  /** A teardown only gives frames back. */
  lemma DestroysFree(s: State, role: Roles, s': State, role': Roles, r: nat)
    requires Destroys(s, role, s', role', r)
    ensures Free(s') >= Free(s)
  {
    forall f | RESERVED <= f < TOTAL_FRAMES && s'.used[f] ensures s.used[f] { assert OnlyOwned(s, role, s', r, f); }
    FreeFromMore(s.used, s'.used, RESERVED);
  }

  /** n - m, not below zero. */
  function Less(n: nat, m: nat): nat { if n < m then 0 else n - m }

  lemma FreeTake(s: State, p: nat)
    requires WellFormed(s) && Managed(p) && !s.used[p]
    ensures Free(s) == FreeFrom(s.used[p := true], RESERVED) + 1
  {
    FreeFromTake(s.used, RESERVED, p);
  }

  lemma NoneFree(s: State)
    requires WellFormed(s)
    ensures Free(s) == 0 <==> AllUsed(s)
  {
    FreeFromZero(s.used, RESERVED);
  }

  /** Tables above the page directory that a mapping of page `x` must first take. */
  function MissingDirs(mem: seq<Page>, r: nat, x: Ix): nat {
    var e4 := At(mem, r, x.a);
    if !e4.p then 2 else if !At(mem, e4.pfn, x.b).p then 1 else 0
  }

  /** All tables that a mapping of page `x` must first take. */
  function Missing(mem: seq<Page>, r: nat, x: Ix): nat {
    if MissingDirs(mem, r, x) > 0 then MissingDirs(mem, r, x) + 1
    else
      var e2 := At(mem, At(mem, At(mem, r, x.a).pfn, x.b).pfn, x.c);
      if e2.p || e2.ps then 0 else 1
  }

  ghost predicate AllUsed(s: State) {
    WellFormed(s) && forall g :: RESERVED <= g < TOTAL_FRAMES ==> s.used[g]
  }

  /** Free frames, and one more once directory slot `i` of `c` has its page table. */
  function Budget(s: State, c: nat, i: Index): nat
    requires WellFormed(s)
  {
    Free(s) + if PtOf(s.mem, c, Ix(0, 0, i, 0)).Some? then 1 else 0
  }

  lemma MissingFrom(mem: seq<Page>, r: nat, x: Ix)
    ensures PdOf(mem, r, x).Some? ==> Missing(mem, r, x) <= 1
    ensures PtOf(mem, r, x).Some? ==> Missing(mem, r, x) == 0
    ensures Walk(mem, r, x).Mapped? ==> PtOf(mem, r, x).Some?
    ensures Walk(mem, r, x).Huge? ==> Missing(mem, r, x) == 0 && PdOf(mem, r, x).Some?
  {}

  /** Every address space has a page directory for the first gigabyte. */
  lemma LowPdThere(s: State, role: Roles, r: nat, x: Ix)
    requires Inv(s, role) && IsProc(role, r) && Low(x)
    ensures PdOf(s.mem, r, x).Some? && Missing(s.mem, r, x) <= 1
  {
    FirstSlot(s.mem, role, r);
    LowDirs(s.mem, r, x, Ix(0, 0, 0, 0));
  }

  lemma FirstSlot(mem: seq<Page>, role: Roles, r: nat)
    requires IsProc(role, r) && HugeOk(mem, role, Key(r, Ix(0, 0, 0, 0)))
    ensures Walk(mem, r, Ix(0, 0, 0, 0)).Huge?
  {}

  lemma LowDirs(mem: seq<Page>, r: nat, x: Ix, y: Ix)
    requires Low(x) && Low(y) && Walk(mem, r, y).Huge?
    ensures PdOf(mem, r, x).Some? && Missing(mem, r, x) <= 1
  {
    MissingFrom(mem, r, y);
    MissingFrom(mem, r, x);
  }

  /** Sharing a page takes at most the page table of its slot. */
  lemma ShareCost(s: State, role: Roles, s1: State, s2: State, role2: Roles, p: nat, c: nat, x: Ix, f: nat, ok: bool,
      s3: State)
    requires Inv(s, role) && IsProc(role, p) && IsProc(role, c) && Low(x) && PtOf(s.mem, p, x).Some?
      && PtOf(s.mem, p, x).value < TOTAL_FRAMES
    requires s1 == Store(s, PtOf(s.mem, p, x).value, x.d, Entry(f, 0x205)) && WellFormed(s2) && WellFormed(s3)
      && s3.mem == s2.mem
    requires if ok then MapsPage(s1, role, s2, role2, c, x, Entry(f, 0x205)) else Grows(s1, role, s2, role2)
    requires Free(s3) == Less(Free(s), Missing(s1.mem, c, x))
    requires !ok ==> Walk(s1.mem, c, x).Huge? || Free(s) < Missing(s1.mem, c, x)
    ensures Budget(s3, c, x.c) >= Budget(s, c, x.c)
  {
    SharePaths(s, role, s1, p, c, x, Entry(f, 0x205));
    assert PtOf(s1.mem, c, x).Some? || ok ==> PtOf(s2.mem, c, x).Some? by {
      GrownPath(s1, role, s2, role2, c, x, f, ok);
    }
    BudgetKept(s, s1.mem, s3, c, x, ok);
  }

  /** The parent's entry is no part of the child's tables. */
  lemma SharePaths(s: State, role: Roles, s1: State, p: nat, c: nat, x: Ix, w: Word)
    requires Inv(s, role) && IsProc(role, p) && IsProc(role, c) && Low(x) && PtOf(s.mem, p, x).Some?
      && PtOf(s.mem, p, x).value < TOTAL_FRAMES
    requires s1 == Store(s, PtOf(s.mem, p, x).value, x.d, w)
    ensures PdOf(s1.mem, c, x).Some? && PtOf(s1.mem, c, x) == PtOf(s.mem, c, x)
  {
    PtRole(s, role, p, x);
    StorePaths(s, role, PtOf(s.mem, p, x).value, x.d, w, c, x);
    LowPdThere(s, role, c, x);
  }

  lemma GrownPath(s1: State, role: Roles, s2: State, role2: Roles, c: nat, x: Ix, f: nat, ok: bool)
    requires IsProc(role, c) && if ok then MapsPage(s1, role, s2, role2, c, x, Entry(f, 0x205))
      else Grows(s1, role, s2, role2)
    ensures PtOf(s1.mem, c, x).Some? || ok ==> PtOf(s2.mem, c, x).Some?
  {
    MissingFrom(s2.mem, c, x);
    assert PathKept(s1.mem, s2.mem, role, Key(c, x));
  }

  lemma BudgetKept(s: State, mem1: seq<Page>, s3: State, c: nat, x: Ix, ok: bool)
    requires WellFormed(s) && WellFormed(s3) && x == Ix(0, 0, x.c, x.d)
    requires PdOf(mem1, c, x).Some? && PtOf(mem1, c, x) == PtOf(s.mem, c, x)
      && (PtOf(mem1, c, x).Some? || ok ==> PtOf(s3.mem, c, x).Some?)
    requires Free(s3) == Less(Free(s), Missing(mem1, c, x))
      && (!ok ==> Walk(mem1, c, x).Huge? || Free(s) < Missing(mem1, c, x))
    ensures Budget(s3, c, x.c) >= Budget(s, c, x.c)
  {
    MissingFrom(mem1, c, x);
    assert PtOf(s.mem, c, x) == PtOf(s.mem, c, Ix(0, 0, x.c, 0))
      && PtOf(s3.mem, c, x) == PtOf(s3.mem, c, Ix(0, 0, x.c, 0));
  }

  // ---------------------------------------------------------------------------
  // The walk that takes missing tables
  // ---------------------------------------------------------------------------

  /** Slot `i` of table `f` leads to table `t`: the one that was there, a fresh zeroed one, or none (0) for want of
      frames. */
  ghost predicate Hooked(s: State, role: Roles, f: nat, i: Index, t: nat, s': State, role': Roles) {
    && f in role && !role[f].Pt? && Grows(s, role, s', role')
    && (t == 0 ==> s' == s && role' == role && AllUsed(s))
    && (t != 0 ==> At(s'.mem, f, i).p && At(s'.mem, f, i).pfn == t && (role[f].Pd? ==> !At(s'.mem, f, i).ps))
    && (forall g :: g in role' && g !in role ==> role'[g] == Sub(role[f], i))
    && (t == 0 <==> !At(s.mem, f, i).p && Free(s) == 0)
    && (At(s.mem, f, i).p ==> s' == s && role' == role && t == At(s.mem, f, i).pfn)
    && (!At(s.mem, f, i).p ==> Free(s') == Less(Free(s), 1))
    && (!At(s.mem, f, i).p && t != 0 ==> forall j: Index :: At(s'.mem, t, j) == ZERO)
  }

  lemma HookedOld(s: State, role: Roles, f: nat, i: Index, t: nat)
    requires Tree(s, role) && f in role && !role[f].Pt? && At(s.mem, f, i).p && At(s.mem, f, i).pfn == t
      && (role[f].Pd? ==> !At(s.mem, f, i).ps)
    ensures Hooked(s, role, f, i, t, s, role)
  {
    GrowsRefl(s, role);
    assert EntryOk(s, role, f, i);
    assert RoleOk(s, role, t);
  }

  lemma HookedNone(s: State, role: Roles, f: nat, i: Index)
    requires Tree(s, role) && f in role && !role[f].Pt? && !At(s.mem, f, i).p && Free(s) == 0
    ensures Hooked(s, role, f, i, 0, s, role)
  {
    GrowsRefl(s, role);
    NoneFree(s);
  }

  lemma HookedNew(s: State, role: Roles, f: nat, i: Index, t: nat)
    requires Tree(s, role) && f in role && !role[f].Pt? && !At(s.mem, f, i).p && Managed(t) && !s.used[t]
    ensures f < TOTAL_FRAMES && Hooked(s, role, f, i, t, Link(s, f, i, t), role[t := Sub(role[f], i)])
  {
    LinkGrows(s, role, f, i, t);
    FreeTake(s, t);
    LinkAt(s, f, i, t, f, i);
    forall j: Index ensures At(Link(s, f, i, t).mem, t, j) == ZERO { LinkAt(s, f, i, t, t, j); }
  }

  /** The page directory of page `x` is reached, or frames ran out. */
  ghost predicate ReachedPd(s: State, role: Roles, r: nat, x: Ix, t: nat, s': State, role': Roles) {
    && WellFormed(s) && Grows(s, role, s', role') && NewOn(role, role', r, x)
    && (t == 0 ==> AllUsed(s'))
    && (t != 0 ==> PdOf(s'.mem, r, x) == Some(t))
    && (t == 0 <==> Free(s) < MissingDirs(s.mem, r, x))
    && Free(s') == Less(Free(s), MissingDirs(s.mem, r, x))
    && (MissingDirs(s.mem, r, x) == 0 ==> s' == s && role' == role)
    && (MissingDirs(s.mem, r, x) > 0 && t != 0 ==> At(s'.mem, t, x.c) == ZERO)
  }

  lemma PdNone(s0: State, r0: Roles, r: nat, x: Ix, s1: State, r1: Roles)
    requires IsProc(r0, r) && Hooked(s0, r0, r, x.a, 0, s1, r1)
    ensures ReachedPd(s0, r0, r, x, 0, s1, r1)
  {}

  lemma PdptReady(s0: State, r0: Roles, r: nat, x: Ix, pdpt: nat, s1: State, r1: Roles)
    requires IsProc(r0, r) && Hooked(s0, r0, r, x.a, pdpt, s1, r1) && pdpt != 0
    ensures Tree(s1, r1) && pdpt in r1 && r1[pdpt] == Pdpt(r, x.a)
  {
    assert EntryOk(s1, r1, r, x.a);
  }

  lemma PdDone(s0: State, r0: Roles, r: nat, x: Ix, pdpt: nat, s1: State, r1: Roles, t: nat, s2: State, r2: Roles)
    requires pdpt in r1 && r1[pdpt] == Pdpt(r, x.a) && IsProc(r0, r) && pdpt != 0
    requires Hooked(s0, r0, r, x.a, pdpt, s1, r1) && Hooked(s1, r1, pdpt, x.b, t, s2, r2)
    ensures ReachedPd(s0, r0, r, x, t, s2, r2)
  {
    GrowsTrans(s0, r0, s1, r1, s2, r2);
    assert At(s2.mem, r, x.a) == At(s1.mem, r, x.a);
    NewOnTwice(r0, r1, r2, r, x);
  }

  lemma NewOnTwice(r0: Roles, r1: Roles, r2: Roles, r: nat, x: Ix)
    requires NewOn(r0, r1, r, x) && NewOn(r1, r2, r, x) && forall f :: f in r1 ==> f in r2 && r2[f] == r1[f]
    ensures NewOn(r0, r2, r, x)
  {}

  /** The page table of page `x` is reached, or there is a 2MB entry, or frames ran out. */
  ghost predicate ReachedPt(s: State, role: Roles, r: nat, x: Ix, t: nat, s': State, role': Roles) {
    && WellFormed(s) && Grows(s, role, s', role') && NewOn(role, role', r, x)
    && (t == 0 ==> Walk(s'.mem, r, x).Huge? || AllUsed(s'))
    && (t != 0 ==> PtOf(s'.mem, r, x) == Some(t))
    && (t == 0 <==> Walk(s.mem, r, x).Huge? || Free(s) < Missing(s.mem, r, x))
    && Free(s') == Less(Free(s), Missing(s.mem, r, x))
    && (Walk(s.mem, r, x).Huge? ==> s' == s && role' == role)
  }

  lemma PtNone(s0: State, r0: Roles, r: nat, x: Ix, s1: State, r1: Roles)
    requires IsProc(r0, r) && ReachedPd(s0, r0, r, x, 0, s1, r1)
    ensures ReachedPt(s0, r0, r, x, 0, s1, r1)
  {}

  lemma PdReady(s0: State, r0: Roles, r: nat, x: Ix, pd: nat, s1: State, r1: Roles)
    requires IsProc(r0, r) && ReachedPd(s0, r0, r, x, pd, s1, r1) && pd != 0
    ensures IsProc(r1, r) && Tree(s1, r1) && pd < TOTAL_FRAMES
    ensures !At(s1.mem, pd, x.c).ps ==> pd in r1 && r1[pd] == Pd(r, x.a, x.b)
  {
    SameProc(r0, r1, r);
    PdRole(s1, r1, r, x);
  }

  lemma PtHuge(s0: State, r0: Roles, r: nat, x: Ix, pd: nat, s1: State, r1: Roles)
    requires IsProc(r0, r) && Tree(s1, r1) && IsProc(r1, r) && ReachedPd(s0, r0, r, x, pd, s1, r1) && pd != 0
      && At(s1.mem, pd, x.c).ps
    ensures ReachedPt(s0, r0, r, x, 0, s1, r1)
  {
    WalkRoles(s1, r1, r, x);
    assert EntryOk(s1, r1, pd, x.c);
  }

  lemma MissingRest(mem0: seq<Page>, mem1: seq<Page>, r: nat, x: Ix, pd: nat)
    requires PdOf(mem1, r, x) == Some(pd) && !At(mem1, pd, x.c).ps
    requires MissingDirs(mem0, r, x) == 0 ==> mem1 == mem0
    requires MissingDirs(mem0, r, x) > 0 ==> At(mem1, pd, x.c) == ZERO
    ensures Missing(mem0, r, x) == MissingDirs(mem0, r, x) + if At(mem1, pd, x.c).p then 0 else 1
    ensures !Walk(mem1, r, x).Huge?
  {}

  lemma PtDone(s0: State, r0: Roles, r: nat, x: Ix, pd: nat, s1: State, r1: Roles, t: nat, s2: State, r2: Roles)
    requires pd in r1 && r1[pd] == Pd(r, x.a, x.b) && IsProc(r0, r) && IsProc(r1, r) && pd != 0
      && !At(s1.mem, pd, x.c).ps
    requires ReachedPd(s0, r0, r, x, pd, s1, r1) && Hooked(s1, r1, pd, x.c, t, s2, r2)
    ensures ReachedPt(s0, r0, r, x, t, s2, r2)
  {
    MissingRest(s0.mem, s1.mem, r, x, pd);
    assert SameAt(s0.mem, s1.mem, r0, Key(r, x));
    GrowsTrans(s0, r0, s1, r1, s2, r2);
    GrowsPt(s1, r1, s2, r2, r, x);
    NewOnTwice(r0, r1, r2, r, x);
  }

  /** Fork is under way since `s0`: the pages before slot (i, j) are shared. */
  ghost predicate Sharing(v0: map<nat, Space>, s0: State, r0: Roles, s: State, role: Roles, p: nat, c: nat, i: nat,
      j: nat) {
    && WellFormed(s0) && Inv(s, role) && Steady(s0, r0, s, role)
    && CopiedTo(v0, ViewOf(s, role), p, c, i, j, !AllUsed(s))
  }

  lemma RowDone(v0: map<nat, Space>, s0: State, r0: Roles, s: State, role: Roles, p: nat, c: nat, i: Index, j: nat)
    requires j == 512 && Sharing(v0, s0, r0, s, role, p, c, i, j) && Budget(s, c, i) >= Budget(s0, c, i)
    ensures Inv(s, role) && Steady(s0, r0, s, role) && CopiedTo(v0, ViewOf(s, role), p, c, i + 1, 0, !AllUsed(s))
    ensures Free(s) + 1 >= Free(s0)
  {
    CopiedRow(v0, ViewOf(s, role), p, c, i, j, !AllUsed(s));
  }

  /** The physical address behind a virtual one, 0 if there is none. */
  function PhysOf(mem: seq<Page>, r: nat, virt: nat): nat {
    match Walk(mem, r, IxOf(virt))
    case Unmapped => 0
    case Huge(w) => (w.pfn - w.pfn % 512) * 4096 + virt % 0x20_0000
    case Mapped(w) => w.pfn * 4096
  }

  method PageVa(i: Index, j: Index) returns (va: nat)
    ensures va == i * 0x20_0000 + j * 0x1000 && IxOf(va) == Ix(0, 0, i, j)
  {
    LowIx(i, j);
    va := i * 0x20_0000 + j * 0x1000;
  }

  lemma BootInv(s: State)
    requires WellFormed(s) && BootOk(s.mem)
    requires forall f :: 0 <= f < |s.cow| ==> s.cow[f] == 0
    ensures Inv(s, map[])
  {
    var m := TransOf(s.mem, map[]);
    assert m == imap[];
    assert forall x, f :: Sharers({}, m, x, f) == {};
    assert Procs(map[]) == {};
  }

  class Machine {
    const bitmap: array<bv8>
    const cowCnt: array<nat>
    const frames: array<Page>
    /** Which frame is which table of which address space. */
    ghost var role: Roles

    ghost predicate Shape() {
      && bitmap.Length == TOTAL_FRAMES / 8
      && cowCnt.Length == TOTAL_FRAMES
      && frames.Length == TOTAL_FRAMES
      && bitmap as object != cowCnt as object
      && bitmap as object != frames as object
      && cowCnt as object != frames as object
    }

    ghost function S(): (s: State)
      requires Shape()
      reads bitmap, cowCnt, frames
      ensures WellFormed(s)
    {
      State(Bits(bitmap[..]), cowCnt[..], frames[..])
    }

    ghost predicate Valid()
      reads this, bitmap, cowCnt, frames
    {
      Shape() && Tree(S(), role)
    }

    /** Boot: any physical memory `boot`, in which kernel_entry.asm then fills the page directories of 1-4GB, and an
        initialised bitmap (pmm_init). */
    constructor (boot: seq<Page>)
      requires |boot| == TOTAL_FRAMES
      ensures Shape() && fresh(bitmap) && fresh(cowCnt) && fresh(frames)
      ensures role == map[] && BootOk(S().mem)
      ensures forall f: nat :: f < TOTAL_FRAMES && !IsBootPd(f) ==> S().mem[f] == boot[f]
      ensures forall f :: 0 <= f < TOTAL_FRAMES ==> S().used[f] == (f < RESERVED) && S().cow[f] == 0
      ensures Inv(S(), role)
    {
      bitmap := new bv8[TOTAL_FRAMES / 8](i => 0);
      cowCnt := new nat[TOTAL_FRAMES](i => 0);
      frames := new Page[TOTAL_FRAMES](i requires 0 <= i < |boot| => boot[i]);
      role := map[];
      new;
      FillBootPd(4, 0x4_0000);
      FillBootPd(5, 0x8_0000);
      FillBootPd(6, 0xC_0000);
      PmmInit();
      BootInv(S());
    }

    /** `fill_pd1` to `fill_pd3`: 512 2MB pages from frame `base` on. */
    method FillBootPd(pd: nat, base: nat)
      requires Shape() && IsBootPd(pd) && base == (pd - 3) * 0x4_0000
      modifies frames
      ensures forall f: nat :: f < TOTAL_FRAMES && f != pd ==> frames[f] == old(frames[f])
      ensures forall i: Index :: frames[pd][i] == BootEntry(pd, i)
    {
      for i := 0 to 512
        invariant forall f: nat :: f < TOTAL_FRAMES && f != pd ==> frames[f] == old(frames[f])
        invariant forall j: Index :: j < i ==> frames[pd][j] == BootEntry(pd, j)
      {
        frames[pd] := frames[pd][i := Entry(base + i * 0x200, 0x83)];
      }
    }

    method PmmInit()
      requires Shape()
      modifies bitmap
      ensures S().cow == old(S().cow) && S().mem == old(S().mem)
      ensures forall f :: 0 <= f < TOTAL_FRAMES ==> S().used[f] == (f < RESERVED)
    {
      for i := 0 to TOTAL_FRAMES / 8
        invariant forall j :: 0 <= j < i ==> bitmap[j] == 0
      {
        bitmap[i] := 0;
      }
      forall f: nat | f < TOTAL_FRAMES ensures !S().used[f] { BitsIndex(bitmap[..], f / 8, f % 8); }
      for i := 0 to RESERVED
        invariant S().cow == old(S().cow) && S().mem == old(S().mem)
        invariant forall f :: 0 <= f < TOTAL_FRAMES ==> S().used[f] == (f < i)
      {
        BitmapSet(i);
      }
    }

    method BitmapSet(f: nat)
      requires Shape() && f < TOTAL_FRAMES
      modifies bitmap
      ensures S() == old(S()).(used := old(S().used)[f := true])
    {
      ghost var b := bitmap[..];
      var c := OrBit(bitmap[f / 8], f % 8);
      BitsPut(b, f / 8, c, f % 8, true);
      bitmap[f / 8] := c;
      assert bitmap[..] == b[f / 8 := c];
    }

    method BitmapClear(f: nat)
      requires Shape() && f < TOTAL_FRAMES
      modifies bitmap
      ensures S() == old(S()).(used := old(S().used)[f := false])
    {
      ghost var b := bitmap[..];
      var c := ClearBit(bitmap[f / 8], f % 8);
      BitsPut(b, f / 8, c, f % 8, false);
      bitmap[f / 8] := c;
      assert bitmap[..] == b[f / 8 := c];
    }

    method BitmapTest(f: nat) returns (b: bool)
      requires Shape() && f < TOTAL_FRAMES
      ensures b == S().used[f]
    {
      BitsIndex(bitmap[..], f / 8, f % 8);
      b := bitmap[f / 8] & BitMask(f % 8) != 0;
    }

    /** First free managed frame, or 0 when every managed frame is taken. */
    method AllocFrame() returns (p: nat)
      requires Shape()
      modifies bitmap
      ensures p == 0 ==> S() == old(S()) && AllUsed(S())
      ensures p != 0 ==>
        && Managed(p) && !old(S().used)[p]
        && S() == old(S()).(used := old(S().used)[p := true])
      ensures p != 0 ==> forall f :: RESERVED <= f < p ==> old(S().used)[f]
      ensures p == 0 <==> old(Free(S())) == 0
      ensures Free(S()) == Less(old(Free(S())), 1)
    {
      NoneFree(S());
      for i := RESERVED to TOTAL_FRAMES
        invariant S() == old(S())
        invariant forall f :: RESERVED <= f < i ==> S().used[f]
      {
        var b := BitmapTest(i);
        if !b {
          FreeTake(S(), i);
          BitmapSet(i);
          return i;
        }
      }
      return 0;
    }

    method FreeFrame(f: nat)
      requires Shape()
      modifies bitmap
      ensures S() == if Managed(f) then old(S()).(used := old(S().used)[f := false]) else old(S())
    {
      if RESERVED <= f < TOTAL_FRAMES {
        BitmapClear(f);
      }
    }

    method FreeCount() returns (n: nat)
      requires Shape()
      ensures n == FreeFrom(S().used, RESERVED)
    {
      n := 0;
      for i := TOTAL_FRAMES downto RESERVED
        invariant n == FreeFrom(S().used, i)
      {
        var b := BitmapTest(i);
        if !b { n := n + 1; }
      }
    }

    method SetWord(f: nat, i: Index, w: Word)
      requires Shape() && f < TOTAL_FRAMES
      modifies frames
      ensures S() == Store(old(S()), f, i, w)
    {
      frames[f] := frames[f][i := w];
    }

    method ZeroFrame(f: nat)
      requires Shape() && f < TOTAL_FRAMES
      modifies frames
      ensures S() == old(S()).(mem := old(S().mem)[f := ZeroPage()])
    {
      ghost var m := frames[..];
      for i := 0 to 512
        invariant frames[..] == m[f := frames[f]]
        invariant forall j :: 0 <= j < i ==> frames[f][j] == ZERO
      {
        frames[f] := frames[f][i := ZERO];
      }
      assert frames[f] == ZeroPage();
    }

    method CopyFrame(src: nat, dst: nat)
      requires Shape() && src < TOTAL_FRAMES && dst < TOTAL_FRAMES && src != dst
      modifies frames
      ensures S() == old(S()).(mem := old(S().mem)[dst := old(S().mem)[src]])
    {
      ghost var m := frames[..];
      for i := 0 to 512
        invariant frames[..] == m[dst := frames[dst]]
        invariant forall j :: 0 <= j < i ==> frames[dst][j] == m[src][j]
      {
        assert frames[src] == m[src];
        frames[dst] := frames[dst][i := frames[src][i]];
      }
      assert frames[dst] == m[src];
    }

    // -------------------------------------------------------------------------
    // Mapping
    // -------------------------------------------------------------------------

    /** Follows slot `i` of table `f`, hooking in a fresh zeroed table if it is empty; 0 when out of frames. */
    method EnsureTable(f: nat, i: Index) returns (t: nat)
      requires Valid() && f in role && !role[f].Pt? && (role[f].Pd? ==> !At(S().mem, f, i).ps)
      modifies this, bitmap, frames
      ensures Hooked(old(S()), old(role), f, i, t, S(), role)
    {
      ghost var s := S();
      assert RoleOk(s, role, f);
      if frames[f][i].p {
        t := frames[f][i].pfn;
        HookedOld(s, role, f, i, t);
      } else {
        t := AllocFrame();
        if t != 0 {
          HookedNew(s, role, f, i, t);
          ZeroFrame(t);
          SetWord(f, i, Entry(t, 7));
          role := role[t := Sub(role[f], i)];
        } else {
          HookedNone(s, role, f, i);
        }
      }
    }

    /** The first two levels of the walk in `vmm_map_page`; 0 when out of frames. */
    method ReachPd(r: nat, x: Ix) returns (t: nat)
      requires Valid() && IsProc(role, r)
      modifies this, bitmap, frames
      ensures ReachedPd(old(S()), old(role), r, x, t, S(), role)
    {
      ghost var s0, r0 := S(), role;
      var pdpt := EnsureTable(r, x.a);
      ghost var s1, r1 := S(), role;
      if pdpt == 0 {
        PdNone(s0, r0, r, x, s1, r1);
        return 0;
      }
      PdptReady(s0, r0, r, x, pdpt, s1, r1);
      t := EnsureTable(pdpt, x.b);
      PdDone(s0, r0, r, x, pdpt, s1, r1, t, S(), role);
    }

    /** The whole walk: the page table covering `x`; 0 at a 2MB entry or when out of frames. */
    method ReachPt(r: nat, x: Ix) returns (t: nat)
      requires Valid() && IsProc(role, r)
      modifies this, bitmap, frames
      ensures ReachedPt(old(S()), old(role), r, x, t, S(), role)
    {
      ghost var s0, r0 := S(), role;
      var pd := ReachPd(r, x);
      ghost var s1, r1 := S(), role;
      if pd == 0 {
        PtNone(s0, r0, r, x, s1, r1);
        return 0;
      }
      PdReady(s0, r0, r, x, pd, s1, r1);
      if frames[pd][x.c].ps {
        PtHuge(s0, r0, r, x, pd, s1, r1);
        return 0;
      }
      t := EnsureTable(pd, x.c);
      PtDone(s0, r0, r, x, pd, s1, r1, t, S(), role);
    }

    /** Maps the page of `virt` to frame `f`. The C function is void; `ok` says whether it took effect. */
    method MapPage(r: nat, virt: nat, f: nat, low: bv12) returns (ghost ok: bool)
      requires Valid() && IsProc(role, r)
      requires f !in role && (Managed(f) ==> S().used[f])
      modifies this, bitmap, frames
      ensures ok ==> MapsPage(old(S()), old(role), S(), role, r, IxOf(virt), Entry(f, low | 1))
      ensures !ok ==> Grows(old(S()), old(role), S(), role)
      ensures NewOn(old(role), role, r, IxOf(virt))
      ensures !ok ==> Walk(S().mem, r, IxOf(virt)).Huge? || AllUsed(S())
      ensures ok <==> !old(Walk(S().mem, r, IxOf(virt))).Huge? && old(Free(S())) >= Missing(old(S().mem), r, IxOf(virt))
      ensures Free(S()) == Less(old(Free(S())), Missing(old(S().mem), r, IxOf(virt)))
      ensures old(Walk(S().mem, r, IxOf(virt))).Huge? ==> S() == old(S()) && role == old(role)
    {
      var x := IxOf(virt);
      ghost var s0, r0 := S(), role;
      var t := ReachPt(r, x);
      if t == 0 { return false; }
      MapDone(s0, r0, S(), role, r, x, Entry(f, low | 1));
      SetWord(t, x.d, Entry(f, low | 1));
      ok := true;
    }

    /** The frame of the page table holding the entry of `virt`; 0 stands for a null pointer. */
    method GetPte(r: nat, virt: nat) returns (t: nat)
      requires Valid() && (r == 0 || IsProc(role, r))
      ensures t == 0 <==> r == 0 || PtOf(S().mem, r, IxOf(virt)).None?
      ensures t != 0 ==> PtOf(S().mem, r, IxOf(virt)) == Some(t) && t < TOTAL_FRAMES
    {
      if r == 0 { return 0; }
      var x := IxOf(virt);
      ghost var s := S();
      assert RoleOk(s, role, r);
      WalkRoles(s, role, r, x);
      if !frames[r][x.a].p { return 0; }
      var pdpt := frames[r][x.a].pfn;
      assert RoleOk(s, role, pdpt);
      if !frames[pdpt][x.b].p { return 0; }
      var pd := frames[pdpt][x.b].pfn;
      PdRole(s, role, r, x);
      if !frames[pd][x.c].p || frames[pd][x.c].ps { return 0; }
      t := frames[pd][x.c].pfn;
      PtRole(s, role, r, x);
    }

    method GetPhys(r: nat, virt: nat) returns (phys: nat)
      requires Valid() && (r == 0 || IsProc(role, r))
      ensures phys == if r == 0 then 0 else PhysOf(S().mem, r, virt)
    {
      phys := 0;
      if r == 0 { return; }
      var x := IxOf(virt);
      ghost var s := S();
      assert RoleOk(s, role, r);
      WalkRoles(s, role, r, x);
      if frames[r][x.a].p {
        var pdpt := frames[r][x.a].pfn;
        assert RoleOk(s, role, pdpt);
        if frames[pdpt][x.b].p {
          var pd := frames[pdpt][x.b].pfn;
          PdRole(s, role, r, x);
          var e := frames[pd][x.c];
          if e.p {
            if e.ps {
              phys := (e.pfn - e.pfn % 512) * 4096 + virt % 0x20_0000;
            } else {
              assert RoleOk(s, role, e.pfn);
              if frames[e.pfn][x.d].p { phys := frames[e.pfn][x.d].pfn * 4096; }
            }
          }
        }
      }
    }

    method UnmapPage(r: nat, virt: nat)
      requires Valid() && (r == 0 || IsProc(role, r))
      modifies frames
      ensures r == 0 ==> S() == old(S())
      ensures r != 0 ==> UnmapsPage(old(S()), role, S(), r, IxOf(virt))
    {
      ghost var s := S();
      var t := GetPte(r, virt);
      if t != 0 {
        StoreUnmaps(s, role, r, IxOf(virt));
        SetWord(t, IxOf(virt).d, ZERO);
      } else if r != 0 {
        UnmapsNothing(s, role, r, IxOf(virt));
      }
    }

    // -------------------------------------------------------------------------
    // Write faults
    // -------------------------------------------------------------------------

    /** Whether a write fault on page `x` of `r` can be served. */
    ghost predicate Servable(s: State, r: nat, x: Ix)
      reads this
    {
      var m := TransOf(s.mem, role);
      && Key(r, x) in m && m[Key(r, x)].cow && m[Key(r, x)].pfn < |s.cow|
      && (s.cow[m[Key(r, x)].pfn] <= 1 || !AllUsed(s))
    }

    method DecCow(f: nat)
      requires Shape() && f < TOTAL_FRAMES && S().cow[f] > 0
      modifies cowCnt
      ensures S() == old(S()).(cow := old(S().cow)[f := old(S().cow)[f] - 1])
    {
      cowCnt[f] := cowCnt[f] - 1;
    }

    /** A fresh frame with the contents of `f`, or 0. */
    method TakeCopy(f: nat) returns (g: nat)
      requires Shape() && f < TOTAL_FRAMES && S().used[f]
      modifies bitmap, frames
      ensures g == 0 ==> S() == old(S()) && AllUsed(S())
      ensures g != 0 ==>
        && Managed(g) && !old(S().used)[g]
        && S() == old(S()).(used := old(S().used)[g := true], mem := old(S().mem)[g := old(S().mem)[f]])
      ensures Free(S()) + 1 >= old(Free(S()))
    {
      g := AllocFrame();
      if g != 0 { CopyFrame(f, g); }
    }

    /** The branch of `vmm_cow_fault` for a frame that may still be shared: slot `d` of table `t`
        moves to a copy of frame `f`, or 0 is returned when there is no frame for it. */
    method MoveToCopy(t: nat, d: Index, f: nat) returns (g: nat)
      requires Shape() && t < TOTAL_FRAMES && f < TOTAL_FRAMES && S().used[f] && S().cow[f] > 0
      modifies bitmap, cowCnt, frames
      ensures g == 0 ==> S() == old(S()) && AllUsed(S())
      ensures g != 0 ==> Managed(g) && !old(S().used)[g] && S() == Moved(old(S()), t, d, f, g)
      ensures Free(S()) + 1 >= old(Free(S()))
    {
      g := TakeCopy(f);
      if g != 0 {
        SetWord(t, d, Entry(g, 7));
        DecCow(f);
      }
    }

    method CowFault(r: nat, virt: nat) returns (handled: bool)
      requires Shape() && Inv(S(), role) && IsProc(role, r)
      modifies bitmap, cowCnt, frames
      ensures Inv(S(), role) && ViewOf(S(), role) == old(ViewOf(S(), role))
      ensures handled == old(Servable(S(), r, IxOf(virt)))
      ensures !handled ==> S() == old(S())
      ensures handled ==> Key(r, IxOf(virt)) in TransOf(S().mem, role) && TransOf(S().mem, role)[Key(r, IxOf(virt))].rw
      ensures handled ==> Serves(old(S()), role, S(), r, IxOf(virt))
      ensures Free(S()) + 1 >= old(Free(S()))
      ensures Alone(old(S()), role, r, IxOf(virt)) ==> SameFrames(old(S()), S(), role)
    {
      var x := IxOf(virt);
      ghost var s := S();
      var t := GetPte(r, virt);
      assert RoleOk(s, role, r);
      TransAt(s, role, r, x);
      if t == 0 || !frames[t][x.d].p { return false; }
      if !frames[t][x.d].cow { return false; }
      var f := frames[t][x.d].pfn;
      assert LeafOk(Procs(role), TransOf(s.mem, role), Key(r, x));
      MappedOk(s, role, Key(r, x));
      if f < TOTAL_FRAMES && cowCnt[f] > 1 {
        handled := FaultShared(r, x, t, f);
      } else {
        FaultOwnInv(s, role, r, x);
        SetWord(t, x.d, Entry(f, 7));
        handled := true;
      }
    }

    /** The branch for a frame that may still be shared. */
    method FaultShared(ghost r: nat, x: Ix, t: nat, f: nat) returns (handled: bool)
      requires Shape() && Inv(S(), role) && f < TOTAL_FRAMES && S().used[f] && S().cow[f] > 1 && t < TOTAL_FRAMES
      requires PtOf(S().mem, r, x) == Some(t) && Key(r, x) in TransOf(S().mem, role)
        && TransOf(S().mem, role)[Key(r, x)].pfn == f
      modifies bitmap, cowCnt, frames
      ensures Inv(S(), role) && ViewOf(S(), role) == old(ViewOf(S(), role)) && handled == !old(AllUsed(S()))
      ensures !handled ==> S() == old(S())
      ensures handled ==> Key(r, x) in TransOf(S().mem, role) && TransOf(S().mem, role)[Key(r, x)].rw
      ensures handled ==> Serves(old(S()), role, S(), r, x)
      ensures Free(S()) + 1 >= old(Free(S()))
    {
      ghost var s := S();
      var g := MoveToCopy(t, x.d, f);
      handled := g != 0;
      if handled { FaultCopyInv(s, role, r, x, g); }
    }

    // -------------------------------------------------------------------------
    // New address spaces
    // -------------------------------------------------------------------------

    method AllocZeroed() returns (p: nat)
      requires Shape()
      modifies bitmap, frames
      ensures p == 0 ==> S() == old(S()) && AllUsed(S())
      ensures p != 0 ==>
        && Managed(p) && !old(S().used)[p]
        && S() == old(S()).(used := old(S().used)[p := true], mem := old(S().mem)[p := ZeroPage()])
      ensures p == 0 <==> old(Free(S())) == 0
      ensures Free(S()) == Less(old(Free(S())), 1)
    {
      p := AllocFrame();
      if p != 0 { ZeroFrame(p); }
    }

    /** The three tables of a new address space, zeroed, or nothing taken. */
    method TakeTables() returns (r: nat, q: nat, d: nat)
      requires Shape()
      modifies bitmap, frames
      ensures r == 0 ==> FreeFrom(old(S().used), RESERVED) < 3
      ensures r == 0 ==>
        && S().used == old(S().used) && S().cow == old(S().cow)
        && forall f: nat :: f < TOTAL_FRAMES && (Managed(f) ==> S().used[f]) ==> S().mem[f] == old(S().mem)[f]
      ensures r != 0 ==>
        && FreeFrom(old(S().used), RESERVED) >= 3
        && Managed(r) && Managed(q) && Managed(d) && r != q && r != d && q != d
        && !old(S().used)[r] && !old(S().used)[q] && !old(S().used)[d]
        && S() == old(S()).(used := old(S().used)[r := true][q := true][d := true],
                            mem := old(S().mem)[r := ZeroPage()][q := ZeroPage()][d := ZeroPage()])
        && Free(S()) + 3 == old(Free(S()))
    {
      ghost var u := S().used;
      q, d := 0, 0;
      FreeFromZero(S().used, RESERVED);
      r := AllocZeroed();
      if r == 0 { return; }
      FreeFromTake(u, RESERVED, r);
      FreeFromZero(S().used, RESERVED);
      q := AllocZeroed();
      if q == 0 {
        FreeFrame(r);
        assert S().used == u;
        return 0, 0, 0;
      }
      FreeFromTake(u[r := true], RESERVED, q);
      FreeFromZero(S().used, RESERVED);
      d := AllocZeroed();
      if d == 0 {
        FreeFrame(q);
        FreeFrame(r);
        assert S().used == u;
        return 0, 0, 0;
      }
      FreeFromTake(u[r := true][q := true], RESERVED, d);
    }

    method FillLowPd(d: nat)
      requires Shape() && d < TOTAL_FRAMES && S().mem[d] == ZeroPage()
      modifies frames
      ensures S() == old(S()).(mem := old(S().mem)[d := LowPd()])
    {
      ghost var m := frames[..];
      frames[d] := frames[d][0 := Entry(0, 0x87)][1 := Entry(0x200, 0x87)];
      frames[d] := frames[d][2 := Entry(0x400, 0x87)][3 := Entry(0x600, 0x87)];
      frames[d] := frames[d][32 := Entry(0x4000, 0x83)][33 := Entry(0x4200, 0x83)];
      frames[d] := frames[d][34 := Entry(0x4400, 0x83)][35 := Entry(0x4600, 0x83)];
      frames[d] := frames[d][36 := Entry(0x4800, 0x83)][37 := Entry(0x4A00, 0x83)];
      assert frames[d] == LowPd();
      assert frames[..] == m[d := LowPd()];
    }

    method FillRoot(r: nat, q: nat, d: nat)
      requires Shape() && r < TOTAL_FRAMES && q < TOTAL_FRAMES && r != q
      requires S().mem[r] == ZeroPage() && S().mem[q] == ZeroPage()
      modifies frames
      ensures S() == old(S()).(mem := old(S().mem)[r := RootPage(q)][q := PdptPage(d)])
    {
      ghost var m := frames[..];
      frames[r] := frames[r][0 := Entry(q, 7)];
      frames[q] := frames[q][0 := Entry(d, 7)][1 := Entry(4, 3)][2 := Entry(5, 3)][3 := Entry(6, 3)];
      assert frames[q] == PdptPage(d);
      ghost var m1: seq<Page> := m[r := RootPage(q)];
      assert frames[..] == m1[q := PdptPage(d)];
    }

    method CreateTables() returns (r: nat, ghost q: nat, ghost d: nat)
      requires Shape()
      modifies bitmap, frames
      ensures r == 0 ==> FreeFrom(old(S().used), RESERVED) < 3
      ensures r == 0 ==>
        && S().used == old(S().used) && S().cow == old(S().cow)
        && forall f: nat :: f < TOTAL_FRAMES && (Managed(f) ==> S().used[f]) ==> S().mem[f] == old(S().mem)[f]
      ensures r != 0 ==>
        && FreeFrom(old(S().used), RESERVED) >= 3
        && Managed(r) && Managed(q) && Managed(d) && r != q && r != d && q != d
        && !old(S().used)[r] && !old(S().used)[q] && !old(S().used)[d]
        && S() == Build(old(S()), r, q, d) && Free(S()) + 3 == old(Free(S()))
    {
      ghost var s := S();
      var pdpt, pd;
      r, pdpt, pd := TakeTables();
      q, d := pdpt, pd;
      if r != 0 {
        FillRoot(r, pdpt, pd);
        FillLowPd(pd);
        assert S().mem == Build(s, r, q, d).mem;
      }
    }

    /** A new, empty address space; 0, and nothing an address space can see changed, when fewer than three frames are
        free. */
    method CreatePageDir() returns (r: nat)
      requires Shape() && Inv(S(), role)
      modifies this, bitmap, frames
      ensures r == 0 <==> FreeFrom(old(S().used), RESERVED) < 3
      ensures r == 0 ==>
        && Inv(S(), role) && role == old(role)
        && S().used == old(S().used) && S().cow == old(S().cow)
        && ViewOf(S(), role) == old(ViewOf(S(), role))
      ensures r != 0 ==> Creates(old(S()), old(role), S(), role, r) && Free(S()) + 3 == old(Free(S()))
    {
      ghost var s, q, d := S(), 0, 0;
      r, q, d := CreateTables();
      if r == 0 {
        QuietInv(s, S(), role);
      } else {
        BuildCreates(s, role, r, q, d);
        role := Enroll(role, r, q, d);
      }
    }

    // -------------------------------------------------------------------------
    // Fork
    // -------------------------------------------------------------------------

    /** The parent's entry made read-only and copy-on-write, then the child's mapping. */
    method ProtectMap(c: nat, pt: nat, i: Index, j: Index) returns (f: nat, ghost ok: bool, ghost s1: State)
      requires Shape() && pt < TOTAL_FRAMES && At(S().mem, pt, j).p && IsProc(role, c)
      requires var f := At(S().mem, pt, j).pfn;
        f !in role && Managed(f) && S().used[f] && Tree(Store(S(), pt, j, Entry(f, 0x205)), role)
      modifies this, bitmap, frames
      ensures f == old(At(S().mem, pt, j).pfn) && s1 == Store(old(S()), pt, j, Entry(f, 0x205))
      ensures ok ==> MapsPage(s1, old(role), S(), role, c, Ix(0, 0, i, j), Entry(f, 0x205))
      ensures !ok ==> Grows(s1, old(role), S(), role)
      ensures !ok ==> Walk(S().mem, c, Ix(0, 0, i, j)).Huge? || AllUsed(S())
      ensures Free(S()) == Less(old(Free(S())), Missing(s1.mem, c, Ix(0, 0, i, j)))
      ensures !ok ==> Walk(s1.mem, c, Ix(0, 0, i, j)).Huge? || old(Free(S())) < Missing(s1.mem, c, Ix(0, 0, i, j))
    {
      f := frames[pt][j].pfn;
      SetWord(pt, j, Entry(f, 0x205));
      s1 := S();
      var va := PageVa(i, j);
      ok := MapPage(c, va, f, 0x205);
    }

    /** The writes of one iteration of the inner loop: entry, mapping, counter. */
    method ShareRaw(c: nat, pt: nat, i: Index, j: Index)
        returns (ghost f: nat, ghost ok: bool, ghost s1: State, ghost s2: State)
      requires Shape() && pt < TOTAL_FRAMES && At(S().mem, pt, j).p && IsProc(role, c)
      requires var f := At(S().mem, pt, j).pfn;
        f !in role && Managed(f) && S().used[f] && Tree(Store(S(), pt, j, Entry(f, 0x205)), role)
      modifies this, bitmap, cowCnt, frames
      ensures f == old(At(S().mem, pt, j).pfn) && s1 == Store(old(S()), pt, j, Entry(f, 0x205))
      ensures ok ==> MapsPage(s1, old(role), s2, role, c, Ix(0, 0, i, j), Entry(f, 0x205))
      ensures !ok ==> Grows(s1, old(role), s2, role)
      ensures !ok ==> Walk(s2.mem, c, Ix(0, 0, i, j)).Huge? || AllUsed(s2)
      ensures Shape() && f < |s2.cow| && S() == s2.(cow := s2.cow[f := Bump(s2.cow[f])])
      ensures Free(S()) == Less(old(Free(S())), Missing(s1.mem, c, Ix(0, 0, i, j)))
      ensures !ok ==> Walk(s1.mem, c, Ix(0, 0, i, j)).Huge? || old(Free(S())) < Missing(s1.mem, c, Ix(0, 0, i, j))
    {
      var g;
      g, ok, s1 := ProtectMap(c, pt, i, j);
      f := g;
      s2 := S();
      if g < TOTAL_FRAMES {
        BumpCow(g);
      }
    }

    /** One iteration of the inner loop of `vmm_copy_cow`: slot `j` of page table `pt`, directory slot `i`. */
    method ShareOne(p: nat, c: nat, pt: nat, i: Index, j: Index) returns (ghost ok: bool)
      requires Shape() && Inv(S(), role) && p in Procs(role) && c in Procs(role) && p != c && |Procs(role)| <= 255
      requires PtOf(S().mem, p, Ix(0, 0, i, j)) == Some(pt) && pt < TOTAL_FRAMES && At(S().mem, pt, j).p
      requires Key(c, Ix(0, 0, i, j)) !in TransOf(S().mem, role)
      modifies this, bitmap, cowCnt, frames
      ensures SharesPage(old(S()), old(role), S(), role, p, c, Ix(0, 0, i, j), ok)
      ensures Counts(old(S()), old(role), S(), role, p, Ix(0, 0, i, j))
      ensures !ok ==> AllUsed(S())
      ensures Budget(S(), c, i) >= old(Budget(S(), c, i))
    {
      ghost var s, r0, x := S(), role, Ix(0, 0, i, j);
      ShareReady(s, role, p, x);
      ghost var f, s1, s2;
      f, ok, s1, s2 := ShareRaw(c, pt, i, j);
      ghost var s3 := S();
      ShareDone(s, r0, s1, s2, role, p, c, x, ok, s3);
      ShareCounts(s, r0, s1, s2, role, p, c, x, ok, s3);
      ShareCost(s, r0, s1, s2, role, p, c, x, f, ok, s3);
    }

    method BumpCow(f: nat)
      requires Shape() && f < TOTAL_FRAMES
      modifies cowCnt
      ensures S() == old(S()).(cow := old(S().cow)[f := Bump(old(S().cow)[f])])
    {
      if cowCnt[f] < 254 {
        cowCnt[f] := cowCnt[f] + 2;
      } else {
        cowCnt[f] := 255;
      }
    }

    /** The page directory of the first gigabyte, 0 if the way to it is missing. */
    method LowDir(r: nat) returns (pd: nat)
      requires Valid() && IsProc(role, r)
      ensures pd == 0 <==> PdOf(S().mem, r, Ix(0, 0, 0, 0)).None?
      ensures pd != 0 ==> PdOf(S().mem, r, Ix(0, 0, 0, 0)) == Some(pd) && pd < TOTAL_FRAMES
    {
      ghost var s := S();
      assert RoleOk(s, role, r);
      WalkRoles(s, role, r, Ix(0, 0, 0, 0));
      if !frames[r][0].p { return 0; }
      var pdpt := frames[r][0].pfn;
      assert RoleOk(s, role, pdpt);
      if !frames[pdpt][0].p { return 0; }
      PdRole(s, role, r, Ix(0, 0, 0, 0));
      pd := frames[pdpt][0].pfn;
    }

    /** Slot `j` of the parent's page table `pt`, present or not. */
    method ShareSlot(p: nat, c: nat, pt: nat, i: Index, j: Index, ghost v0: map<nat, Space>, ghost sf: State,
        ghost rf: Roles)
      requires Shape() && Forking(sf, rf, S(), role, p, i, j)
      requires Shape() && Inv(S(), role) && p in Procs(role) && c in Procs(role) && |Procs(role)| <= 255
      requires PtOf(S().mem, p, Ix(0, 0, i, j)) == Some(pt) && pt < TOTAL_FRAMES
      requires CopiedTo(v0, ViewOf(S(), role), p, c, i, j, !AllUsed(S()))
      modifies this, bitmap, cowCnt, frames
      ensures Inv(S(), role) && Steady(old(S()), old(role), S(), role)
      ensures CopiedTo(v0, ViewOf(S(), role), p, c, i, j + 1, !AllUsed(S()))
      ensures Forking(sf, rf, S(), role, p, i, j + 1)
      ensures Budget(S(), c, i) >= old(Budget(S(), c, i))
    {
      ghost var s, r1 := S(), role;
      if frames[pt][j].p && frames[pt][j].pfn >= RESERVED {
        ChildLacks(v0, s, role, p, c, i, j, !AllUsed(s));
        ghost var ok := ShareOne(p, c, pt, i, j);
        ShareCopied(v0, s, r1, p, c, i, j, ok);
        RaisesPage(sf, rf, s, r1, S(), role, p, i, j);
      } else {
        SkipCopied(v0, s, role, p, c, i, j, !AllUsed(s));
        RaisesSkip(sf, rf, s, role, p, i, j);
      }
    }

    /** The inner loop of `vmm_copy_cow`. */
    method ShareTable(p: nat, c: nat, pt: nat, i: Index, ghost v0: map<nat, Space>, ghost sf: State, ghost rf: Roles)
      requires Shape() && Forking(sf, rf, S(), role, p, i, 0)
      requires Shape() && Inv(S(), role) && p in Procs(role) && c in Procs(role) && |Procs(role)| <= 255
      requires PtOf(S().mem, p, Ix(0, 0, i, 0)) == Some(pt) && pt < TOTAL_FRAMES
      requires CopiedTo(v0, ViewOf(S(), role), p, c, i, 0, !AllUsed(S()))
      modifies this, bitmap, cowCnt, frames
      ensures Inv(S(), role) && Steady(old(S()), old(role), S(), role)
      ensures CopiedTo(v0, ViewOf(S(), role), p, c, i + 1, 0, !AllUsed(S()))
      ensures Forking(sf, rf, S(), role, p, i + 1, 0)
      ensures Free(S()) + 1 >= old(Free(S()))
    {
      ghost var s0, r0 := S(), role;
      SteadyRefl(s0, r0);
      for j := 0 to 512
        invariant Sharing(v0, s0, r0, S(), role, p, c, i, j) && Budget(S(), c, i) >= Budget(s0, c, i)
        invariant Forking(sf, rf, S(), role, p, i, j)
      {
        ShareNext(p, c, pt, i, j, v0, s0, r0, sf, rf);
      }
      RaisesRow(sf, rf, S(), role, p, i, 512);
      RowDone(v0, s0, r0, S(), role, p, c, i, 512);
    }

    /** One turn of it, since state `s0`. */
    method ShareNext(p: nat, c: nat, pt: nat, i: Index, j: Index, ghost v0: map<nat, Space>, ghost s0: State,
        ghost r0: Roles, ghost sf: State, ghost rf: Roles)
      requires Shape() && Forking(sf, rf, S(), role, p, i, j)
      requires Shape() && p in Procs(r0) && c in Procs(r0) && |Procs(r0)| <= 255
      requires PtOf(s0.mem, p, Ix(0, 0, i, 0)) == Some(pt) && pt < TOTAL_FRAMES
      requires Sharing(v0, s0, r0, S(), role, p, c, i, j) && Budget(S(), c, i) >= Budget(s0, c, i)
      modifies this, bitmap, cowCnt, frames
      ensures Forking(sf, rf, S(), role, p, i, j + 1)
      ensures Sharing(v0, s0, r0, S(), role, p, c, i, j + 1) && Budget(S(), c, i) >= Budget(s0, c, i)
    {
      ghost var s, r1 := S(), role;
      SteadyPt(s0, r0, s, r1, p, Ix(0, 0, i, 0), Ix(0, 0, i, j));
      ShareSlot(p, c, pt, i, j, v0, sf, rf);
      SteadyTrans(s0, r0, s, r1, S(), role);
    }

    /** Directory slot `i` of the parent: a page table, a 2MB entry or nothing. */
    method ShareDirSlot(p: nat, c: nat, pd: nat, i: Index, ghost v0: map<nat, Space>, ghost sf: State, ghost rf: Roles)
      requires Shape() && Forking(sf, rf, S(), role, p, i, 0)
      requires Shape() && Inv(S(), role) && p in Procs(role) && c in Procs(role) && |Procs(role)| <= 255
      requires PdOf(S().mem, p, Ix(0, 0, i, 0)) == Some(pd) && pd < TOTAL_FRAMES
      requires CopiedTo(v0, ViewOf(S(), role), p, c, i, 0, !AllUsed(S()))
      modifies this, bitmap, cowCnt, frames
      ensures Inv(S(), role) && Steady(old(S()), old(role), S(), role)
      ensures CopiedTo(v0, ViewOf(S(), role), p, c, i + 1, 0, !AllUsed(S()))
      ensures Forking(sf, rf, S(), role, p, i + 1, 0)
      ensures Free(S()) + 1 >= old(Free(S()))
    {
      ghost var s := S();
      if frames[pd][i].p && !frames[pd][i].ps {
        PtRole(s, role, p, Ix(0, 0, i, 0));
        ShareTable(p, c, frames[pd][i].pfn, i, v0, sf, rf);
      } else {
        NoTablePages(s, role, p, i);
        NoTableKeys(s, role, p, i);
        RaisesRow(sf, rf, s, role, p, i, 0);
        CopiedRow(v0, ViewOf(s, role), p, c, i, 0, !AllUsed(s));
      }
    }

    /** `vmm_copy_cow`: nothing for a null directory. */
    method CopyCow(p: nat, c: nat)
      requires Shape() && Inv(S(), role) && |Procs(role)| <= 255
      requires p == 0 || c == 0 || (IsProc(role, p) && IsProc(role, c) && p != c && ViewOf(S(), role)[c] == imap[])
      modifies this, bitmap, cowCnt, frames
      ensures p == 0 || c == 0 ==> S() == old(S()) && role == old(role)
      ensures p != 0 && c != 0 ==> Inv(S(), role) && Steady(old(S()), old(role), S(), role)
      ensures p != 0 && c != 0 ==> CopiedTo(old(ViewOf(S(), role)), ViewOf(S(), role), p, c, 512, 0, !AllUsed(S()))
      ensures p != 0 && c != 0 ==> Raises(old(S()), old(role), S(), role, p, 512, 0)
      ensures Free(S()) + 512 >= old(Free(S()))
    {
      if p == 0 || c == 0 { return; }
      CopySpace(p, c);
    }

    /** Shares every page of the first gigabyte of `p` with the new address space `c`. */
    method CopySpace(p: nat, c: nat)
      requires Shape() && Inv(S(), role) && IsProc(role, p) && IsProc(role, c) && p != c && |Procs(role)| <= 255
      requires ViewOf(S(), role)[c] == imap[]
      modifies this, bitmap, cowCnt, frames
      ensures Inv(S(), role) && Steady(old(S()), old(role), S(), role)
      ensures CopiedTo(old(ViewOf(S(), role)), ViewOf(S(), role), p, c, 512, 0, !AllUsed(S()))
      ensures Raises(old(S()), old(role), S(), role, p, 512, 0)
      ensures Free(S()) + 512 >= old(Free(S()))
    {
      ghost var s0, r0, v0 := S(), role, ViewOf(S(), role);
      assert p in Procs(role) && c in Procs(role);
      SteadyRefl(s0, r0);
      var pd := LowDir(p);
      if pd == 0 {
        NoLowPages(s0, r0, p);
        CopiedStart(v0, p, c, 512, !AllUsed(s0));
        RaisesNoPages(s0, r0, p);
        return;
      }
      CopiedStart(v0, p, c, 0, !AllUsed(s0));
      RaisesStart(s0, r0, p);
      for i := 0 to 512
        invariant Forking(s0, r0, S(), role, p, i, 0)
        invariant Sharing(v0, s0, r0, S(), role, p, c, i, 0) && Free(S()) + i >= Free(s0)
      {
        ShareNextSlot(p, c, pd, i, v0, s0, r0);
      }
    }

    /** One turn of the outer loop, since state `s0`. */
    method ShareNextSlot(p: nat, c: nat, pd: nat, i: Index, ghost v0: map<nat, Space>, ghost s0: State, ghost r0: Roles)
      requires Shape() && p in Procs(r0) && c in Procs(r0) && |Procs(r0)| <= 255
      requires PdOf(s0.mem, p, Ix(0, 0, 0, 0)) == Some(pd) && pd < TOTAL_FRAMES
      requires Sharing(v0, s0, r0, S(), role, p, c, i, 0) && Forking(s0, r0, S(), role, p, i, 0)
      modifies this, bitmap, cowCnt, frames
      ensures Forking(s0, r0, S(), role, p, i + 1, 0)
      ensures Sharing(v0, s0, r0, S(), role, p, c, i + 1, 0) && Free(S()) + 1 >= old(Free(S()))
    {
      ghost var s, r1 := S(), role;
      SteadyPd(s0, r0, s, r1, p, Ix(0, 0, 0, 0), Ix(0, 0, i, 0));
      ShareDirSlot(p, c, pd, i, v0, s0, r0);
      SteadyTrans(s0, r0, s, r1, S(), role);
    }

    /** The copy relation after one page. */
    lemma ShareCopied(v0: map<nat, Space>, s: State, r1: Roles, p: nat, c: nat, i: Index, j: Index, ok: bool)
      requires Shape() && SharesPage(s, r1, S(), role, p, c, Ix(0, 0, i, j), ok) && (!ok ==> AllUsed(S()))
      requires CopiedTo(v0, ViewOf(s, r1), p, c, i, j, !AllUsed(s))
      ensures CopiedTo(v0, ViewOf(S(), role), p, c, i, j + 1, !AllUsed(S()))
    {
      CopiedWeaken(v0, ViewOf(s, r1), p, c, i, j, !AllUsed(s), !AllUsed(S()));
      if ok {
        CopiedShare(v0, ViewOf(s, r1), p, c, i, j, !AllUsed(S()));
      } else {
        CopiedSkip(v0, ViewOf(s, r1), p, c, i, j, !AllUsed(S()));
      }
    }

    // -------------------------------------------------------------------------
    // Teardown
    // -------------------------------------------------------------------------

    method ReleaseFrame(f: nat)
      requires Shape() && f < TOTAL_FRAMES
      modifies bitmap, cowCnt
      ensures RESERVED <= f ==> S() == Release(old(S()), f)
      ensures f < RESERVED ==> S() == old(S())
    {
      if f >= RESERVED {
        if f < TOTAL_FRAMES && cowCnt[f] > 0 {
          DecCow(f);
        } else {
          FreeFrame(f);
        }
      }
    }

    /** The inner loop of `vmm_free_user_memory` and the release of the page table itself. */
    method ReleaseTable(ghost s0: State, ghost role0: Roles, ghost r: nat, i: Index, pt: nat)
      requires Shape() && Releasing(s0, role0, S(), r, i, 0) && PtOf(s0.mem, r, Ix(0, 0, i, 0)) == Some(pt)
        && Managed(pt)
      modifies bitmap, cowCnt
      ensures Releasing(s0, role0, S(), r, i + 1, 0)
    {
      for j := 0 to 512
        invariant Releasing(s0, role0, S(), r, i, j)
      {
        ghost var s, x := S(), Ix(0, 0, i, j);
        assert PtOf(s0.mem, r, x) == PtOf(s0.mem, r, Ix(0, 0, i, 0));
        TransAt(s0, role0, r, x);
        if frames[pt][j].p {
          var f := frames[pt][j].pfn;
          assert LeafOk(Procs(role0), TransOf(s0.mem, role0), Key(r, x));
          ReleasingPage(s0, role0, s, r, i, j, f);
          ReleaseFrame(f);
        } else {
          ReleasingSkip(s0, role0, s, r, i, j);
        }
      }
      ReleasingTable(s0, role0, S(), r, i, pt);
      FreeFrame(pt);
    }

    /** One iteration of the outer loop of `vmm_free_user_memory`. */
    method ReleaseSlot(ghost s0: State, ghost role0: Roles, ghost r: nat, i: Index, pd: nat)
      requires Shape() && Releasing(s0, role0, S(), r, i, 0) && PdOf(s0.mem, r, Ix(0, 0, i, 0)) == Some(pd)
        && pd < TOTAL_FRAMES
      modifies bitmap, cowCnt
      ensures Releasing(s0, role0, S(), r, i + 1, 0)
    {
      if frames[pd][i].p && !frames[pd][i].ps {
        PtRole(s0, role0, r, Ix(0, 0, i, 0));
        ReleaseTable(s0, role0, r, i, frames[pd][i].pfn);
      } else {
        ReleasingNoTable(s0, role0, S(), r, i);
      }
    }

    method ReleaseDir(ghost s0: State, ghost role0: Roles, ghost r: nat, pd: nat)
      requires Shape() && Releasing(s0, role0, S(), r, 0, 0) && PdOf(s0.mem, r, Ix(0, 0, 0, 0)) == Some(pd)
        && pd < TOTAL_FRAMES
      modifies bitmap, cowCnt
      ensures Releasing(s0, role0, S(), r, 512, 0)
    {
      for i := 0 to 512
        invariant Releasing(s0, role0, S(), r, i, 0)
      {
        assert PdOf(s0.mem, r, Ix(0, 0, i, 0)) == PdOf(s0.mem, r, Ix(0, 0, 0, 0));
        ReleaseSlot(s0, role0, r, i, pd);
      }
    }

    method FreeTableFrame(ghost s0: State, ghost role0: Roles, ghost r: nat, ghost gone: set<nat>, g: nat)
      requires Shape() && Tearing(s0, role0, S(), r, gone) && g in role0 && LowTable(role0[g], r)
      modifies bitmap
      ensures Tearing(s0, role0, S(), r, gone + {g})
    {
      TearTable(s0, role0, S(), r, gone, g);
      assert RoleOk(s0, role0, g);
      FreeFrame(g);
    }

    /** Everything below the PDPT of the first 512GB, then the PDPT. */
    method ReleasePdpt(ghost s0: State, ghost role0: Roles, ghost r: nat, pdpt: nat) returns (ghost gone: set<nat>)
      requires Shape() && S() == s0 && Inv(s0, role0) && IsProc(role0, r)
      requires At(s0.mem, r, 0).p && At(s0.mem, r, 0).pfn == pdpt && pdpt in role0 && role0[pdpt] == Pdpt(r, 0)
      modifies bitmap, cowCnt
      ensures Tearing(s0, role0, S(), r, gone) && pdpt in gone
      ensures PdOf(s0.mem, r, Ix(0, 0, 0, 0)).Some? ==> PdOf(s0.mem, r, Ix(0, 0, 0, 0)).value in gone
    {
      gone := {};
      assert r in Procs(role0);
      assert RoleOk(s0, role0, pdpt);
      if frames[pdpt][0].p {
        var pd := frames[pdpt][0].pfn;
        LowPdOwn(s0, role0, r);
        ReleasingStart(s0, role0, r);
        ReleaseDir(s0, role0, r, pd);
        FreeTableFrame(s0, role0, r, gone, pd);
        gone := gone + {pd};
      } else {
        ReleasingNone(s0, role0, r);
      }
      FreeTableFrame(s0, role0, r, gone, pdpt);
      gone := gone + {pdpt};
    }

    /** `vmm_free_user_memory`: nothing for a null directory. */
    method FreeUserMemory(r: nat)
      requires Shape() && Inv(S(), role) && (r == 0 || IsProc(role, r))
      modifies this, bitmap, cowCnt
      ensures r == 0 ==> S() == old(S()) && role == old(role)
      ensures r != 0 ==> Destroys(old(S()), old(role), S(), role, r)
      ensures Free(S()) >= old(Free(S()))
    {
      if r == 0 { return; }
      ghost var s, r0 := S(), role;
      FreeSpace(r);
      DestroysFree(s, r0, S(), role, r);
    }

    /** Releases every low page, page table and top-level table of `r`. */
    method FreeSpace(r: nat)
      requires Shape() && Inv(S(), role) && IsProc(role, r)
      modifies this, bitmap, cowCnt
      ensures Destroys(old(S()), old(role), S(), role, r)
    {
      ghost var s0, role0, gone: set<nat> := S(), role, {};
      assert r in Procs(role0);
      assert RoleOk(s0, role0, r);
      if frames[r][0].p {
        WalkRoles(s0, role0, r, Ix(0, 0, 0, 0));
        gone := ReleasePdpt(s0, role0, r, frames[r][0].pfn);
      } else {
        ReleasingNone(s0, role0, r);
      }
      FreeTableFrame(s0, role0, r, gone, r);
      Torn(s0, role0, S(), r, gone + {r});
      role := Retire(role0, r);
    }
  }
}
