/** Physical memory as the memory manager sees it: frames of 512 words, the frame
    bitmap, the copy-on-write counters, and the 4-level walk (src/kernel/vmm.c). */
module Paging {

  const TOTAL_FRAMES: nat := 16384
  const RESERVED: nat := 2048

  type Index = i: nat | i < 512

  /** One 64-bit word. As a page-table entry: bits 12..63 are `pfn`; bits 0, 1, 2, 7 and 9
      are the named flags. `value` is the whole number, with all bits. */
  datatype Word = Word(pfn: nat, p: bool, rw: bool, us: bool, ps: bool, cow: bool, value: nat)

  const ZERO: Word := Word(0, false, false, false, false, false, 0)

  /** `(pfn << 12) | low`. */
  function Entry(pfn: nat, low: bv12): Word {
    Word(pfn, low & 1 != 0, low & 2 != 0, low & 4 != 0, low & 0x80 != 0, low & 0x200 != 0, pfn * 4096 + low as nat)
  }

  function Zeros(n: nat): (s: seq<Word>)
    ensures |s| == n && forall i :: 0 <= i < n ==> s[i] == ZERO
  {
    seq(n, i => ZERO)
  }

  type Page = s: seq<Word> | |s| == 512 witness Zeros(512)

  function ZeroPage(): Page { Zeros(512) }

  datatype State = State(used: seq<bool>, cow: seq<nat>, mem: seq<Page>)

  predicate WellFormed(s: State) {
    |s.used| == |s.cow| == |s.mem| == TOTAL_FRAMES
  }

  predicate Managed(f: nat) {
    RESERVED <= f < TOTAL_FRAMES
  }

  /** The four table indices of a virtual page. */
  datatype Ix = Ix(a: Index, b: Index, c: Index, d: Index)

  function IxOf(virt: nat): Ix {
    Ix((virt / 0x80_0000_0000) % 512, (virt / 0x4000_0000) % 512, (virt / 0x20_0000) % 512, (virt / 0x1000) % 512)
  }

  lemma LowIx(i: Index, j: Index)
    ensures IxOf(i * 0x20_0000 + j * 0x1000) == Ix(0, 0, i, j)
  {
    var v := i * 0x20_0000 + j * 0x1000;
    assert v / 0x1000 == i * 512 + j && v / 0x20_0000 == i;
  }

  /** The indices of page number n. */
  function PageIx(n: nat): Ix { Ix((n / 0x800_0000) % 512, (n / 0x4_0000) % 512, (n / 512) % 512, n % 512) }

  lemma IxOfPage(v: nat)
    ensures IxOf(v) == PageIx(v / 0x1000)
  {
    assert v / 0x20_0000 == (v / 0x1000) / 512;
    assert v / 0x4000_0000 == (v / 0x1000) / 0x4_0000;
    assert v / 0x80_0000_0000 == (v / 0x1000) / 0x800_0000;
  }

  lemma PageDigits(n: nat)
    requires n < 0x10_0000_0000
    ensures var x := PageIx(n); n == ((x.a * 512 + x.b) * 512 + x.c) * 512 + x.d
  {
    assert n / 0x4_0000 == (n / 512) / 512;
    assert n / 0x800_0000 == (n / 0x4_0000) / 512;
  }

  /** Different pages of the 48-bit address range have different indices. */
  lemma IxInjective(v: nat, w: nat)
    requires v < 0x1_0000_0000_0000 && w < 0x1_0000_0000_0000
    ensures IxOf(v) == IxOf(w) <==> v / 0x1000 == w / 0x1000
  {
    IxOfPage(v);
    IxOfPage(w);
    if IxOf(v) == IxOf(w) { PageInjective(v / 0x1000, w / 0x1000); }
  }

  lemma PageInjective(n: nat, k: nat)
    requires n < 0x10_0000_0000 && k < 0x10_0000_0000 && PageIx(n) == PageIx(k)
    ensures n == k
  {
    PageDigits(n);
    PageDigits(k);
  }

  function At(mem: seq<Page>, f: nat, i: Index): Word {
    if f < |mem| then mem[f][i] else ZERO
  }

  datatype Target = Unmapped | Huge(w: Word) | Mapped(w: Word)

  /** What the walk finds for a page: nothing, a 2MB entry, or a present 4KB entry. */
  function Walk(mem: seq<Page>, r: nat, x: Ix): Target {
    var e4 := At(mem, r, x.a);
    if !e4.p then Unmapped else
    var e3 := At(mem, e4.pfn, x.b);
    if !e3.p then Unmapped else
    var e2 := At(mem, e3.pfn, x.c);
    if !e2.p then Unmapped else
    if e2.ps then Huge(e2) else
    var e1 := At(mem, e2.pfn, x.d);
    if e1.p then Mapped(e1) else Unmapped
  }

  datatype Option<T> = None | Some(value: T)

  /** The frame of the page directory that covers a page, if the walk reaches one. */
  function PdOf(mem: seq<Page>, r: nat, x: Ix): Option<nat> {
    var e4 := At(mem, r, x.a);
    if !e4.p then None else
    var e3 := At(mem, e4.pfn, x.b);
    if !e3.p then None else Some(e3.pfn)
  }

  /** The frame of the page table that covers a page, if the walk reaches one. */
  function PtOf(mem: seq<Page>, r: nat, x: Ix): Option<nat> {
    match PdOf(mem, r, x)
    case None => None
    case Some(pd) =>
      var e2 := At(mem, pd, x.c);
      if !e2.p || e2.ps then None else Some(e2.pfn)
  }

  // ---------------------------------------------------------------------------
  // Ownership of table frames
  // ---------------------------------------------------------------------------

  /** Where a table frame sits: in which address space (named by its PML4 frame), at which path. */
  datatype Role =
    | Pml4(r: nat)
    | Pdpt(r: nat, a: Index)
    | Pd(r: nat, a: Index, b: Index)
    | Pt(r: nat, a: Index, b: Index, c: Index)

  type Roles = map<nat, Role>

  /** The role of the table that entry `i` of a table with role `q` points to. */
  function Sub(q: Role, i: Index): Role
    requires !q.Pt?
  {
    match q
    case Pml4(r) => Pdpt(r, i)
    case Pdpt(r, a) => Pd(r, a, i)
    case Pd(r, a, b) => Pt(r, a, b, i)
  }

  predicate IsBootPd(f: nat) { 4 <= f <= 6 }

  /** Entry `i` of the page directory that the boot code puts in frame `f` for gigabyte f - 3: the 2MB page with its own
      address, for the kernel only. */
  function BootEntry(f: nat, i: Index): (e: Word)
    requires IsBootPd(f)
    ensures e.p && e.ps && e.rw && !e.us && e.pfn == (f - 3) * 0x4_0000 + i * 0x200
  {
    Entry((f - 3) * 0x4_0000 + i * 0x200, 0x83)
  }

  /** The page directories of 1GB to 4GB, as the boot code left them. */
  ghost predicate BootOk(mem: seq<Page>) {
    forall f: nat, i: Index :: IsBootPd(f) ==> At(mem, f, i) == BootEntry(f, i)
  }

  predicate IsProc(role: Roles, r: nat) { r in role && role[r] == Pml4(r) }

  /** Entry `i` of table `f` points where the ownership map says it must. */
  predicate EntryOk(s: State, role: Roles, f: nat, i: Index)
    requires WellFormed(s)
  {
    f in role ==>
      var e := At(s.mem, f, i);
      && (role[f].Pd? && e.ps ==> e.p)
      && (e.p ==>
        if role[f].Pt? then
          e.pfn !in role && (Managed(e.pfn) ==> s.used[e.pfn])
        else
          || (e.pfn in role && role[e.pfn] == Sub(role[f], i) && e.rw && e.us && (role[f].Pd? ==> !e.ps))
          || (role[f].Pdpt? && IsBootPd(e.pfn) && !e.us)
          || (role[f].Pd? && e.ps))
  }

  /** A table frame is marked used and hangs exactly where its role says. */
  predicate RoleOk(s: State, role: Roles, f: nat)
    requires WellFormed(s)
  {
    f in role ==>
      && Managed(f) && s.used[f]
      && IsProc(role, role[f].r)
      && match role[f] {
        case Pml4(r) => r == f
        case Pdpt(r, a) => At(s.mem, r, a).p && At(s.mem, r, a).pfn == f
        case Pd(r, a, b) => PdOf(s.mem, r, Ix(a, b, 0, 0)) == Some(f)
        case Pt(r, a, b, c) => PtOf(s.mem, r, Ix(a, b, c, 0)) == Some(f)
      }
  }

  /** Every table frame has one place in one tree, is marked used, and points only to its own sub-tables, to the boot
      page directories, or (from a page table) to data frames that are not tables and not free. */
  ghost predicate Tree(s: State, role: Roles) {
    && WellFormed(s)
    && BootOk(s.mem)
    && (forall f: nat :: RoleOk(s, role, f))
    && (forall f: nat, i: Index :: EntryOk(s, role, f, i))
  }

  /** The walk of a live address space stays inside its own tables. */
  lemma WalkRoles(s: State, role: Roles, r: nat, x: Ix)
    requires Tree(s, role) && IsProc(role, r)
    ensures
      var e4 := At(s.mem, r, x.a);
      e4.p ==>
        && e4.pfn in role && role[e4.pfn] == Pdpt(r, x.a)
        && var e3 := At(s.mem, e4.pfn, x.b);
          e3.p ==>
            var e2 := At(s.mem, e3.pfn, x.c);
            && ((e3.pfn in role && role[e3.pfn] == Pd(r, x.a, x.b)) || (IsBootPd(e3.pfn) && e2.p && e2.ps))
            && (e2.p && !e2.ps ==>
              && e3.pfn in role && role[e3.pfn] == Pd(r, x.a, x.b)
              && e2.pfn in role && role[e2.pfn] == Pt(r, x.a, x.b, x.c)
              && var e1 := At(s.mem, e2.pfn, x.d);
                e1.p ==> e1.pfn !in role && (Managed(e1.pfn) ==> s.used[e1.pfn]))
  {
    var e4 := At(s.mem, r, x.a);
    assert EntryOk(s, role, r, x.a);
    if e4.p {
      var e3 := At(s.mem, e4.pfn, x.b);
      assert EntryOk(s, role, e4.pfn, x.b);
      if e3.p {
        var e2 := At(s.mem, e3.pfn, x.c);
        assert EntryOk(s, role, e3.pfn, x.c);
        if e2.p && !e2.ps {
          assert EntryOk(s, role, e2.pfn, x.d);
        }
      }
    }
  }

  /** Walks depend only on table frames and the boot page directories. */
  lemma SameTables(s: State, s': State, role: Roles, r: nat, x: Ix)
    requires Tree(s, role) && IsProc(role, r) && WellFormed(s')
    requires forall f: nat, i: Index :: f in role || IsBootPd(f) ==> At(s'.mem, f, i) == At(s.mem, f, i)
    ensures Walk(s'.mem, r, x) == Walk(s.mem, r, x)
    ensures PdOf(s'.mem, r, x) == PdOf(s.mem, r, x) && PtOf(s'.mem, r, x) == PtOf(s.mem, r, x)
  {
    WalkRoles(s, role, r, x);
  }

  /** Table placement depends only on table frames and on the used marks growing. */
  lemma SameRole(s: State, s': State, role: Roles, g: nat)
    requires Tree(s, role) && g in role && g < TOTAL_FRAMES && WellFormed(s') && s'.used[g]
    requires forall f: nat, i: Index :: f in role || IsBootPd(f) ==> At(s'.mem, f, i) == At(s.mem, f, i)
    ensures RoleOk(s', role, g)
  {
    assert RoleOk(s, role, g);
    var r := role[g].r;
    match role[g] {
      case Pml4(_) =>
      case Pdpt(_, a) =>
      case Pd(_, a, b) => SameTables(s, s', role, r, Ix(a, b, 0, 0));
      case Pt(_, a, b, c) => SameTables(s, s', role, r, Ix(a, b, c, 0));
    }
  }

  /** Hooks a fresh zeroed frame `p` into slot `i` of table `f`. */
  function Link(s: State, f: nat, i: Index, p: nat): State
    requires WellFormed(s) && f < TOTAL_FRAMES && p < TOTAL_FRAMES
  {
    var m := s.mem[p := ZeroPage()];
    s.(used := s.used[p := true], mem := m[f := m[f][i := Entry(p, 7)]])
  }

  lemma LinkAt(s: State, f: nat, i: Index, p: nat, g: nat, k: Index)
    requires WellFormed(s) && f < TOTAL_FRAMES && p < TOTAL_FRAMES && f != p
    ensures At(Link(s, f, i, p).mem, g, k) ==
            if g == f && k == i then Entry(p, 7) else if g == p then ZERO else At(s.mem, g, k)
  {}

  lemma LinkWalk(s: State, role: Roles, f: nat, i: Index, p: nat, r: nat, x: Ix)
    requires Tree(s, role) && f in role && !role[f].Pt? && IsProc(role, r)
    requires !At(s.mem, f, i).p && Managed(p) && !s.used[p]
    ensures f != p && f < TOTAL_FRAMES
    ensures Walk(Link(s, f, i, p).mem, r, x) == Walk(s.mem, r, x)
  {
    assert RoleOk(s, role, p) && RoleOk(s, role, f);
    WalkRoles(s, role, r, x);
    var m' := Link(s, f, i, p).mem;
    forall g: nat, k: Index
      ensures At(m', g, k) == if g == f && k == i then Entry(p, 7) else if g == p then ZERO else At(s.mem, g, k)
    {
      LinkAt(s, f, i, p, g, k);
    }
  }

  /** Growing the tree keeps every way down to a page directory or page table. */
  lemma LinkPaths(s: State, role: Roles, f: nat, i: Index, p: nat, r: nat, x: Ix)
    requires Tree(s, role) && f in role && !role[f].Pt? && IsProc(role, r)
    requires !At(s.mem, f, i).p && Managed(p) && !s.used[p]
    ensures f != p && f < TOTAL_FRAMES
    ensures PdOf(s.mem, r, x).Some? ==> PdOf(Link(s, f, i, p).mem, r, x) == PdOf(s.mem, r, x)
    ensures PtOf(s.mem, r, x).Some? ==> PtOf(Link(s, f, i, p).mem, r, x) == PtOf(s.mem, r, x)
  {
    assert RoleOk(s, role, p) && RoleOk(s, role, f);
    WalkRoles(s, role, r, x);
    var e4 := At(s.mem, r, x.a);
    LinkAt(s, f, i, p, r, x.a);
    LinkAt(s, f, i, p, e4.pfn, x.b);
    LinkAt(s, f, i, p, At(s.mem, e4.pfn, x.b).pfn, x.c);
  }

  /** The new table hangs at its role. */
  lemma LinkRole(s: State, role: Roles, f: nat, i: Index, p: nat)
    requires Tree(s, role) && f in role && !role[f].Pt?
    requires !At(s.mem, f, i).p && Managed(p) && !s.used[p]
    ensures p !in role && f != p && f < TOTAL_FRAMES
    ensures RoleOk(Link(s, f, i, p), role[p := Sub(role[f], i)], p)
  {
    assert RoleOk(s, role, p) && RoleOk(s, role, f) && RoleOk(s, role, role[f].r);
    LinkAt(s, f, i, p, f, i);
    match role[f] {
      case Pml4(r) =>
      case Pdpt(r, a) => LinkAt(s, f, i, p, r, a);
      case Pd(r, a, b) =>
        var x := Ix(a, b, i, 0);
        assert PdOf(s.mem, r, x) == PdOf(s.mem, r, Ix(a, b, 0, 0));
        LinkPaths(s, role, f, i, p, r, x);
    }
  }

  lemma LinkOldRole(s: State, role: Roles, f: nat, i: Index, p: nat, g: nat)
    requires Tree(s, role) && f in role && !role[f].Pt? && g in role
    requires !At(s.mem, f, i).p && Managed(p) && !s.used[p]
    ensures p !in role && f != p && f < TOTAL_FRAMES
    ensures RoleOk(Link(s, f, i, p), role[p := Sub(role[f], i)], g)
  {
    assert RoleOk(s, role, p) && RoleOk(s, role, f) && RoleOk(s, role, g);
    var r := role[g].r;
    match role[g] {
      case Pml4(_) =>
      case Pdpt(_, a) => LinkAt(s, f, i, p, r, a);
      case Pd(_, a, b) => LinkPaths(s, role, f, i, p, r, Ix(a, b, 0, 0));
      case Pt(_, a, b, c) => LinkPaths(s, role, f, i, p, r, Ix(a, b, c, 0));
    }
  }

  lemma LinkTree(s: State, role: Roles, f: nat, i: Index, p: nat)
    requires Tree(s, role) && f in role && !role[f].Pt?
    requires !At(s.mem, f, i).p && Managed(p) && !s.used[p]
    ensures p !in role && f != p && f < TOTAL_FRAMES
    ensures Tree(Link(s, f, i, p), role[p := Sub(role[f], i)])
  {
    assert RoleOk(s, role, p) && RoleOk(s, role, f);
    var s', role' := Link(s, f, i, p), role[p := Sub(role[f], i)];
    forall g: nat, k: Index ensures EntryOk(s', role', g, k) {
      LinkAt(s, f, i, p, g, k);
      assert EntryOk(s, role, g, k);
    }
    forall g: nat ensures RoleOk(s', role', g) {
      if g == p { LinkRole(s, role, f, i, p); }
      else if g in role { LinkOldRole(s, role, f, i, p, g); }
    }
    forall g: nat, k: Index | IsBootPd(g) ensures At(s'.mem, g, k) == BootEntry(g, k) {
      LinkAt(s, f, i, p, g, k);
    }
  }

  /** Stores a leaf entry in slot `d` of page table `t`. */
  function Store(s: State, t: nat, d: Index, w: Word): State
    requires WellFormed(s) && t < TOTAL_FRAMES
  {
    s.(mem := s.mem[t := s.mem[t][d := w]])
  }

  /** A leaf store is below every page directory and page table it could be reached through. */
  lemma StorePaths(s: State, role: Roles, t: nat, d: Index, w: Word, r: nat, x: Ix)
    requires Tree(s, role) && t in role && role[t].Pt? && IsProc(role, r)
    ensures t < TOTAL_FRAMES
    ensures PdOf(Store(s, t, d, w).mem, r, x) == PdOf(s.mem, r, x)
    ensures PtOf(Store(s, t, d, w).mem, r, x) == PtOf(s.mem, r, x)
  {
    assert RoleOk(s, role, t);
    WalkRoles(s, role, r, x);
  }

  lemma StoreRole(s: State, role: Roles, t: nat, d: Index, w: Word, g: nat)
    requires Tree(s, role) && t in role && role[t].Pt? && g in role
    ensures t < TOTAL_FRAMES
    ensures RoleOk(Store(s, t, d, w), role, g)
  {
    assert RoleOk(s, role, t) && RoleOk(s, role, g);
    var r := role[g].r;
    match role[g] {
      case Pml4(_) =>
      case Pdpt(_, a) =>
      case Pd(_, a, b) => StorePaths(s, role, t, d, w, r, Ix(a, b, 0, 0));
      case Pt(_, a, b, c) => StorePaths(s, role, t, d, w, r, Ix(a, b, c, 0));
    }
  }

  lemma StoreTree(s: State, role: Roles, t: nat, d: Index, w: Word)
    requires Tree(s, role) && t in role && role[t].Pt?
    requires w.p ==> w.pfn !in role && (Managed(w.pfn) ==> s.used[w.pfn])
    ensures t < TOTAL_FRAMES && Tree(Store(s, t, d, w), role)
  {
    assert RoleOk(s, role, t);
    var s' := Store(s, t, d, w);
    forall g: nat, k: Index ensures EntryOk(s', role, g, k) {
      assert EntryOk(s, role, g, k);
    }
    forall g: nat ensures RoleOk(s', role, g) {
      if g in role { StoreRole(s, role, t, d, w, g); }
    }
    assert !IsBootPd(t);
    forall g: nat, k: Index | IsBootPd(g) ensures At(s'.mem, g, k) == BootEntry(g, k) {
      assert At(s.mem, g, k) == BootEntry(g, k);
    }
  }

  /** Storing in the page table of (r, a, b, c) changes the walk of that one page. */
  lemma StoreWalk(s: State, role: Roles, t: nat, d: Index, w: Word, r: nat, x: Ix)
    requires Tree(s, role) && t in role && role[t].Pt? && IsProc(role, r)
    ensures t < TOTAL_FRAMES
    ensures !(role[t] == Pt(r, x.a, x.b, x.c) && x.d == d) ==> Walk(Store(s, t, d, w).mem, r, x) == Walk(s.mem, r, x)
    ensures PtOf(s.mem, r, x) == Some(t) && x.d == d ==>
      Walk(Store(s, t, d, w).mem, r, x) == if w.p then Mapped(w) else Unmapped
  {
    assert RoleOk(s, role, t);
    WalkRoles(s, role, r, x);
  }

  /** A page directory on the way is the boot one, all 2MB entries, or the address space's own. */
  lemma PdRole(s: State, role: Roles, r: nat, x: Ix)
    requires Tree(s, role) && IsProc(role, r) && PdOf(s.mem, r, x).Some?
    ensures
      var pd := PdOf(s.mem, r, x).value;
      var e := At(s.mem, pd, x.c);
      && 0 < pd < TOTAL_FRAMES
      && (e.ps || (pd in role && role[pd] == Pd(r, x.a, x.b)))
      && (e.ps ==> e.p && Walk(s.mem, r, x) == Huge(e))
  {
    WalkRoles(s, role, r, x);
    var pd := PdOf(s.mem, r, x).value;
    assert RoleOk(s, role, pd);
    assert EntryOk(s, role, pd, x.c);
  }
}
