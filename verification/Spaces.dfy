/** Address spaces as their users see them: a partial map from pages to page contents. */
module Spaces {
  import opened Paging
  import opened Cow

  ghost function Procs(role: Roles): set<nat> {
    set r | r in role && role[r] == Pml4(r)
  }

  /** All present 4KB translations of live address spaces. */
  ghost function TransOf(mem: seq<Page>, role: Roles): Trans {
    imap k: Key | IsProc(role, k.r) && Walk(mem, k.r, k.x).Mapped? :: Walk(mem, k.r, k.x).w
  }

  ghost function PageAt(mem: seq<Page>, f: nat): Page {
    if f < |mem| then mem[f] else ZeroPage()
  }

  /** One address space: which pages are there and what they hold. */
  type Space = imap<Ix, seq<Word>>

  ghost function SpaceOf(m: Trans, mem: seq<Page>, r: nat): Space {
    imap x: Ix | Key(r, x) in m :: PageAt(mem, m[Key(r, x)].pfn)
  }

  ghost function View(procs: set<nat>, m: Trans, mem: seq<Page>): map<nat, Space> {
    map r | r in procs :: SpaceOf(m, mem, r)
  }

  ghost function Put(v: map<nat, Space>, r: nat, x: Ix, pg: seq<Word>): map<nat, Space>
    requires r in v
  {
    v[r := v[r][x := pg]]
  }

  /** The view of a machine state. */
  ghost function ViewOf(s: State, role: Roles): map<nat, Space> {
    View(Procs(role), TransOf(s.mem, role), s.mem)
  }

  /** Directory slots that every address space fills with 2MB entries. */
  predicate HugeSlot(c: Index) { c < 4 || 32 <= c < 38 }

  /** Pages inside the 2MB entries of every address space: the fixed slots of the first gigabyte, and 1GB to 4GB. */
  predicate HugeIx(x: Ix) { x.a == 0 && ((x.b == 0 && HugeSlot(x.c)) || 1 <= x.b <= 3) }

  /** The 2MB entry of such a page: its own address, open to the user below 8MB only. */
  function HugeEntry(x: Ix): (e: Word)
    ensures e.p && e.ps && e.rw && e.pfn == x.b * 0x4_0000 + x.c * 0x200 && (e.us <==> x.b == 0 && x.c < 4)
  {
    Entry(x.b * 0x4_0000 + x.c * 0x200, if x.b == 0 && x.c < 4 then 0x87 else 0x83)
  }

  predicate HugeOk(mem: seq<Page>, role: Roles, k: Key) {
    IsProc(role, k.r) ==>
      if HugeIx(k.x) then Walk(mem, k.r, k.x) == Huge(HugeEntry(k.x)) else !Walk(mem, k.r, k.x).Huge?
  }

  /** Counters are set on pages in use only: free frames and tables have none. */
  ghost predicate Tidy(used: seq<bool>, cow: seq<nat>, role: Roles) {
    |used| == |cow| && forall f {:trigger cow[f]} :: 0 <= f < |cow| && (!used[f] || f in role) ==> cow[f] == 0
  }

  /** The invariant of the memory manager. */
  ghost predicate Inv(s: State, role: Roles) {
    && Tree(s, role)
    && Tidy(s.used, s.cow, role)
    && CowOk(Procs(role), TransOf(s.mem, role), s.cow)
    && forall k: Key :: HugeOk(s.mem, role, k)
  }

  lemma TidySet(used: seq<bool>, cow: seq<nat>, role: Roles, f: nat, c: nat)
    requires Tidy(used, cow, role) && f < |cow| && used[f] && f !in role
    ensures Tidy(used, cow[f := c], role)
  {}

  lemma TidyFree(used: seq<bool>, cow: seq<nat>, role: Roles, f: nat)
    requires Tidy(used, cow, role) && f < |cow| && cow[f] == 0
    ensures Tidy(used[f := false], cow, role)
  {}

  lemma TidyTakes(s: State, role: Roles, s': State, role': Roles)
    requires Takes(s, role, s', role') && Tidy(s.used, s.cow, role)
    ensures Tidy(s'.used, s'.cow, role')
  {}

  // ---------------------------------------------------------------------------
  // Views over abstract translations
  // ---------------------------------------------------------------------------

  lemma ViewSame(procs: set<nat>, m: Trans, mem: seq<Page>, mem': seq<Page>)
    requires forall k :: k in m ==> PageAt(mem', m[k].pfn) == PageAt(mem, m[k].pfn)
    ensures View(procs, m, mem') == View(procs, m, mem)
  {
    forall r ensures SpaceOf(m, mem', r) == SpaceOf(m, mem, r) {}
  }

  lemma ViewPut(procs: set<nat>, m: Trans, mem: seq<Page>, r: nat, x: Ix, w: Word)
    requires r in procs
    ensures View(procs, m[Key(r, x) := w], mem) == Put(View(procs, m, mem), r, x, PageAt(mem, w.pfn))
  {
    var m' := m[Key(r, x) := w];
    var v, v' := View(procs, m, mem), View(procs, m', mem);
    forall q | q in procs && q != r ensures v'[q] == v[q] { SpacePut(m, mem, r, x, w, q); }
    SpacePut(m, mem, r, x, w, r);
    OnePoint(v, v', r, v[r][x := PageAt(mem, w.pfn)]);
  }

  lemma OnePoint(v: map<nat, Space>, v': map<nat, Space>, r: nat, y: Space)
    requires v'.Keys == v.Keys && r in v && v'[r] == y && forall q :: q in v && q != r ==> v'[q] == v[q]
    ensures v' == v[r := y]
  {}

  lemma SpacePut(m: Trans, mem: seq<Page>, r: nat, x: Ix, w: Word, q: nat)
    ensures SpaceOf(m[Key(r, x) := w], mem, q) == if q == r then SpaceOf(m, mem, q)[x := PageAt(mem, w.pfn)]
      else SpaceOf(m, mem, q)
  {}

  /** A new address space without pages. */
  lemma ViewNew(procs: set<nat>, m: Trans, mem: seq<Page>, r: nat)
    requires forall x: Ix :: Key(r, x) !in m
    ensures View(procs + {r}, m, mem) == View(procs, m, mem)[r := imap[]]
  {
    assert SpaceOf(m, mem, r) == imap[];
  }

  lemma TransEqual(m: Trans, m': Trans)
    requires forall k :: (k in m' <==> k in m) && (k in m ==> m'[k] == m[k])
    ensures m' == m
  {}

  lemma ViewDrop(procs: set<nat>, m: Trans, mem: seq<Page>, r: nat)
    ensures View(procs - {r}, Without(m, r), mem) == View(procs, m, mem) - {r}
  {
    forall q | q != r ensures SpaceOf(Without(m, r), mem, q) == SpaceOf(m, mem, q) {}
  }

  /** Replacing the page of a frame that only (r, x) maps. */
  lemma ViewWrite(procs: set<nat>, m: Trans, mem: seq<Page>, r: nat, x: Ix, pg: Page)
    requires r in procs && Key(r, x) in m && m[Key(r, x)].pfn < |mem|
    requires forall k :: k in m && m[k].pfn == m[Key(r, x)].pfn ==> k == Key(r, x)
    ensures View(procs, m, mem[m[Key(r, x)].pfn := pg]) == Put(View(procs, m, mem), r, x, pg)
  {
    var mem' := mem[m[Key(r, x)].pfn := pg];
    forall q ensures SpaceOf(m, mem', q) ==
      if q == r then SpaceOf(m, mem, q)[x := pg] else SpaceOf(m, mem, q) {}
  }

  // ---------------------------------------------------------------------------
  // Memory changes and the translations they leave
  // ---------------------------------------------------------------------------

  predicate SameAt(mem: seq<Page>, mem': seq<Page>, role: Roles, k: Key) {
    IsProc(role, k.r) ==> Walk(mem', k.r, k.x) == Walk(mem, k.r, k.x)
  }

  lemma TransSame(mem: seq<Page>, mem': seq<Page>, role: Roles, role': Roles)
    requires Procs(role') == Procs(role)
    requires forall k: Key :: SameAt(mem, mem', role, k)
    ensures TransOf(mem', role') == TransOf(mem, role)
  {
    forall k: Key ensures IsProc(role', k.r) == IsProc(role, k.r) && SameAt(mem, mem', role, k) {
      assert k.r in Procs(role') <==> k.r in Procs(role);
    }
  }

  /** Mapped frames are never tables, and never free. */
  lemma MappedOk(s: State, role: Roles, k: Key)
    requires Tree(s, role) && k in TransOf(s.mem, role)
    ensures k.r in Procs(role) && TransOf(s.mem, role)[k].p
    ensures TransOf(s.mem, role)[k].pfn !in role
    ensures Managed(TransOf(s.mem, role)[k].pfn) ==> s.used[TransOf(s.mem, role)[k].pfn]
  {
    WalkRoles(s, role, k.r, k.x);
  }

  /** Changing memory at table frames and free frames only leaves the view to the translations. */
  lemma ViewFrames(s: State, role: Roles, mem': seq<Page>)
    requires Tree(s, role) && |mem'| == TOTAL_FRAMES
    requires forall f: nat :: f < TOTAL_FRAMES && f !in role && (Managed(f) ==> s.used[f]) ==> mem'[f] == s.mem[f]
    ensures View(Procs(role), TransOf(s.mem, role), mem') == ViewOf(s, role)
  {
    var m := TransOf(s.mem, role);
    forall k | k in m ensures PageAt(mem', m[k].pfn) == PageAt(s.mem, m[k].pfn) {
      MappedOk(s, role, k);
    }
    ViewSame(Procs(role), m, s.mem, mem');
  }

  // ---------------------------------------------------------------------------
  // Table growth
  // ---------------------------------------------------------------------------

  /** A way down to a page directory or page table, once there, stays. */
  predicate PathKept(mem: seq<Page>, mem': seq<Page>, role: Roles, k: Key) {
    IsProc(role, k.r) ==>
      && (PdOf(mem, k.r, k.x).Some? ==> PdOf(mem', k.r, k.x) == PdOf(mem, k.r, k.x))
      && (PtOf(mem, k.r, k.x).Some? ==> PtOf(mem', k.r, k.x) == PtOf(mem, k.r, k.x))
  }

  /** Only fresh frames became tables, and they are exactly the frames newly taken. */
  ghost predicate Takes(s: State, role: Roles, s': State, role': Roles) {
    && Tree(s, role) && Tree(s', role')
    && s'.cow == s.cow
    && Procs(role') == Procs(role)
    && (forall f :: f in role ==> f in role' && role'[f] == role[f])
    && (forall f :: f in role' && f !in role ==> Managed(f) && !s.used[f])
    && (forall f :: 0 <= f < TOTAL_FRAMES ==> s'.used[f] == (s.used[f] || (f in role' && f !in role)))
    && (forall f: nat :: f < TOTAL_FRAMES && f !in role && (Managed(f) ==> s.used[f]) ==> s'.mem[f] == s.mem[f])
    && (forall k: Key :: PathKept(s.mem, s'.mem, role, k))
  }

  /** Table growth that no address space can see: present entries stay as they are. */
  ghost predicate Grows(s: State, role: Roles, s': State, role': Roles) {
    && Takes(s, role, s', role')
    && TransOf(s'.mem, role') == TransOf(s.mem, role)
    && ViewOf(s', role') == ViewOf(s, role)
    && (forall k: Key :: SameAt(s.mem, s'.mem, role, k))
    && (forall f: nat, i: Index :: f in role && At(s.mem, f, i).p ==> At(s'.mem, f, i) == At(s.mem, f, i))
  }

  /** New tables lie on the way to page `x` of `r`. */
  ghost predicate NewOn(role: Roles, role': Roles, r: nat, x: Ix) {
    forall f :: f in role' && f !in role ==>
      role'[f] == Pdpt(r, x.a) || role'[f] == Pd(r, x.a, x.b) || role'[f] == Pt(r, x.a, x.b, x.c)
  }

  lemma GrowsRefl(s: State, role: Roles)
    requires Tree(s, role)
    ensures Grows(s, role, s, role)
  {
  }

  lemma SameProc(role: Roles, role': Roles, r: nat)
    requires Procs(role') == Procs(role)
    ensures IsProc(role', r) == IsProc(role, r)
  {
    assert r in Procs(role') <==> r in Procs(role);
  }

  lemma GrowsTrans(s0: State, r0: Roles, s1: State, r1: Roles, s2: State, r2: Roles)
    requires Grows(s0, r0, s1, r1) && Grows(s1, r1, s2, r2)
    ensures Grows(s0, r0, s2, r2)
  {
    forall f: nat, i: Index | f in r0 && At(s0.mem, f, i).p ensures At(s2.mem, f, i) == At(s0.mem, f, i) {
      assert At(s1.mem, f, i) == At(s0.mem, f, i);
    }
    forall k: Key ensures SameAt(s0.mem, s2.mem, r0, k) && PathKept(s0.mem, s2.mem, r0, k) {
      SameProc(r0, r1, k.r);
      assert SameAt(s0.mem, s1.mem, r0, k) && SameAt(s1.mem, s2.mem, r1, k);
      assert PathKept(s0.mem, s1.mem, r0, k) && PathKept(s1.mem, s2.mem, r1, k);
    }
  }

  /** Growth keeps the way to a page directory, and a filled slot of it leads to a page table. */
  lemma GrowsPt(s: State, role: Roles, s': State, role': Roles, r: nat, x: Ix)
    requires Grows(s, role, s', role') && IsProc(role, r) && PdOf(s.mem, r, x).Some?
    requires !At(s.mem, PdOf(s.mem, r, x).value, x.c).ps
    ensures
      var e := At(s'.mem, PdOf(s.mem, r, x).value, x.c);
      e.p && (At(s.mem, PdOf(s.mem, r, x).value, x.c).p || !e.ps) ==> PtOf(s'.mem, r, x) == Some(e.pfn)
  {
    WalkRoles(s, role, r, x);
    var e4 := At(s.mem, r, x.a);
    assert At(s'.mem, r, x.a) == e4;
    assert At(s'.mem, e4.pfn, x.b) == At(s.mem, e4.pfn, x.b);
  }

  lemma LinkTrans(s: State, role: Roles, f: nat, i: Index, p: nat)
    requires Tree(s, role) && f in role && !role[f].Pt?
    requires !At(s.mem, f, i).p && Managed(p) && !s.used[p]
    ensures f < TOTAL_FRAMES && f != p && p !in role
    ensures Procs(role[p := Sub(role[f], i)]) == Procs(role)
    ensures TransOf(Link(s, f, i, p).mem, role[p := Sub(role[f], i)]) == TransOf(s.mem, role)
    ensures forall k: Key ::
      SameAt(s.mem, Link(s, f, i, p).mem, role, k) && PathKept(s.mem, Link(s, f, i, p).mem, role, k)
  {
    LinkTree(s, role, f, i, p);
    var role' := role[p := Sub(role[f], i)];
    assert Procs(role') == Procs(role);
    forall k: Key ensures SameAt(s.mem, Link(s, f, i, p).mem, role, k)
        && PathKept(s.mem, Link(s, f, i, p).mem, role, k) {
      if IsProc(role, k.r) {
        LinkWalk(s, role, f, i, p, k.r, k.x);
        LinkPaths(s, role, f, i, p, k.r, k.x);
      }
    }
    TransSame(s.mem, Link(s, f, i, p).mem, role, role');
  }

  lemma LinkGrows(s: State, role: Roles, f: nat, i: Index, p: nat)
    requires Tree(s, role) && f in role && !role[f].Pt?
    requires !At(s.mem, f, i).p && Managed(p) && !s.used[p]
    ensures f < TOTAL_FRAMES && f != p
    ensures Grows(s, role, Link(s, f, i, p), role[p := Sub(role[f], i)])
  {
    LinkTree(s, role, f, i, p);
    LinkTrans(s, role, f, i, p);
    ViewFrames(s, role, Link(s, f, i, p).mem);
    assert RoleOk(s, role, f);
  }

  // ---------------------------------------------------------------------------
  // Leaf stores
  // ---------------------------------------------------------------------------

  lemma PtRole(s: State, role: Roles, r: nat, x: Ix)
    requires Tree(s, role) && IsProc(role, r) && PtOf(s.mem, r, x).Some?
    ensures
      var t := PtOf(s.mem, r, x).value;
      t in role && role[t] == Pt(r, x.a, x.b, x.c) && Managed(t) && s.used[t]
  {
    WalkRoles(s, role, r, x);
    assert RoleOk(s, role, PtOf(s.mem, r, x).value);
  }

  predicate StoreAt(mem: seq<Page>, mem': seq<Page>, role: Roles, l: Key, w: Word, k: Key) {
    IsProc(role, k.r) ==>
      Walk(mem', k.r, k.x) == if k == l then (if w.p then Mapped(w) else Unmapped) else Walk(mem, k.r, k.x)
  }

  lemma TransPut(mem: seq<Page>, mem': seq<Page>, role: Roles, l: Key, w: Word)
    requires IsProc(role, l.r) && forall k: Key :: StoreAt(mem, mem', role, l, w, k)
    ensures TransOf(mem', role) == if w.p then TransOf(mem, role)[l := w] else TransOf(mem, role) - {l}
  {
    var m, m' := TransOf(mem, role), TransOf(mem', role);
    forall k: Key ensures
      && (k in m' <==> if k == l then w.p else k in m)
      && (k in m' ==> m'[k] == if k == l then w else m[k])
    {
      assert StoreAt(mem, mem', role, l, w, k);
    }
    ImapPut(m, m', l, w);
  }

  lemma ImapPut(m: Trans, m': Trans, l: Key, w: Word)
    requires forall k :: k in m' <==> if k == l then w.p else k in m
    requires forall k :: k in m' ==> m'[k] == if k == l then w else m[k]
    ensures m' == if w.p then m[l := w] else m - {l}
  {}

  /** Storing a leaf rewrites exactly one translation. */
  lemma StoreTrans(s: State, role: Roles, r: nat, x: Ix, w: Word)
    requires Tree(s, role) && IsProc(role, r) && PtOf(s.mem, r, x).Some?
    ensures PtOf(s.mem, r, x).value < TOTAL_FRAMES
    ensures TransOf(Store(s, PtOf(s.mem, r, x).value, x.d, w).mem, role)
         == if w.p then TransOf(s.mem, role)[Key(r, x) := w] else TransOf(s.mem, role) - {Key(r, x)}
  {
    var t := PtOf(s.mem, r, x).value;
    PtRole(s, role, r, x);
    forall k: Key ensures StoreAt(s.mem, Store(s, t, x.d, w).mem, role, Key(r, x), w, k) {
      if IsProc(role, k.r) { StoreWalk(s, role, t, x.d, w, k.r, k.x); }
    }
    TransPut(s.mem, Store(s, t, x.d, w).mem, role, Key(r, x), w);
  }

  lemma StoreView(s: State, role: Roles, r: nat, x: Ix, w: Word)
    requires Tree(s, role) && IsProc(role, r) && PtOf(s.mem, r, x).Some? && w.p
    requires w.pfn !in role && (Managed(w.pfn) ==> s.used[w.pfn])
    ensures PtOf(s.mem, r, x).value < TOTAL_FRAMES && r in ViewOf(s, role)
    ensures
      var s' := Store(s, PtOf(s.mem, r, x).value, x.d, w);
      Tree(s', role) && ViewOf(s', role) == Put(ViewOf(s, role), r, x, PageAt(s.mem, w.pfn))
  {
    var t := PtOf(s.mem, r, x).value;
    PtRole(s, role, r, x);
    StoreTree(s, role, t, x.d, w);
    StoreTrans(s, role, r, x, w);
    var s' := Store(s, t, x.d, w);
    assert r in Procs(role);
    ViewFrames(s, role, s'.mem);
    ViewPut(Procs(role), TransOf(s.mem, role), s'.mem, r, x, w);
  }

  /** The effect of a mapping that went through: one page of one address space, and maybe new tables. */
  ghost predicate MapsPage(s: State, role: Roles, s': State, role': Roles, r: nat, x: Ix, w: Word) {
    && Takes(s, role, s', role')
    && IsProc(role, r) && r in ViewOf(s, role)
    && !Walk(s.mem, r, x).Huge? && Walk(s'.mem, r, x) == Mapped(w)
    && (forall k: Key :: k != Key(r, x) ==> SameAt(s.mem, s'.mem, role, k))
    && TransOf(s'.mem, role') == TransOf(s.mem, role)[Key(r, x) := w]
    && ViewOf(s', role') == Put(ViewOf(s, role), r, x, PageAt(s.mem, w.pfn))
  }

  /** The effect of an unmapping: the page is gone, if there was a page table for it; no frame is freed. */
  ghost predicate UnmapsPage(s: State, role: Roles, s': State, r: nat, x: Ix) {
    && Tree(s', role) && s'.used == s.used && s'.cow == s.cow
    && (PtOf(s.mem, r, x).None? ==> s' == s)
    && (PtOf(s.mem, r, x).Some? ==>
      && Walk(s'.mem, r, x) == Unmapped
      && forall k: Key :: k != Key(r, x) ==> SameAt(s.mem, s'.mem, role, k))
    && TransOf(s'.mem, role) == TransOf(s.mem, role) - {Key(r, x)}
    && (forall f: nat :: f < |s.mem| == |s'.mem| && f !in role ==> s'.mem[f] == s.mem[f])
  }

  /** Every walk of every process gives what it gave. */
  ghost predicate SameWalks(s0: State, r0: Roles, s2: State, r2: Roles) {
    (forall k: Key :: SameAt(s0.mem, s2.mem, r0, k)) && TransOf(s2.mem, r2) == TransOf(s0.mem, r0)
  }

  /** Unmapping undoes mapping an unmapped page. */
  lemma UndoMap(s0: State, r0: Roles, s1: State, r1: Roles, s2: State, r: nat, x: Ix, w: Word)
    requires IsProc(r0, r) && Walk(s0.mem, r, x) == Unmapped && UnmapsPage(s1, r1, s2, r, x)
    requires MapsPage(s0, r0, s1, r1, r, x, w) || Grows(s0, r0, s1, r1)
    ensures SameWalks(s0, r0, s2, r1)
  {
    forall k: Key ensures SameAt(s0.mem, s2.mem, r0, k) {
      SameProc(r0, r1, k.r);
      if k != Key(r, x) || Grows(s0, r0, s1, r1) { assert SameAt(s0.mem, s1.mem, r0, k); }
      if k != Key(r, x) && PtOf(s1.mem, r, x).Some? { assert SameAt(s1.mem, s2.mem, r1, k); }
    }
    TransSame(s0.mem, s2.mem, r0, r1);
  }

  lemma UnmapsNothing(s: State, role: Roles, r: nat, x: Ix)
    requires Tree(s, role) && PtOf(s.mem, r, x).None?
    ensures UnmapsPage(s, role, s, r, x)
  {
    assert Key(r, x) !in TransOf(s.mem, role);
  }

  lemma StoreUnmaps(s: State, role: Roles, r: nat, x: Ix)
    requires Tree(s, role) && IsProc(role, r) && PtOf(s.mem, r, x).Some?
    ensures PtOf(s.mem, r, x).value < TOTAL_FRAMES
    ensures UnmapsPage(s, role, Store(s, PtOf(s.mem, r, x).value, x.d, ZERO), r, x)
  {
    var t := PtOf(s.mem, r, x).value;
    PtRole(s, role, r, x);
    StoreTree(s, role, t, x.d, ZERO);
    StoreTrans(s, role, r, x, ZERO);
    var mem' := Store(s, t, x.d, ZERO).mem;
    forall k: Key ensures k != Key(r, x) ==> SameAt(s.mem, mem', role, k) {
      if IsProc(role, k.r) { StoreWalk(s, role, t, x.d, ZERO, k.r, k.x); }
    }
    StoreWalk(s, role, t, x.d, ZERO, r, x);
  }

  lemma StoreKeys(s: State, role: Roles, r: nat, x: Ix, w: Word)
    requires Tree(s, role) && IsProc(role, r) && PtOf(s.mem, r, x).Some? && w.p
    ensures PtOf(s.mem, r, x).value < TOTAL_FRAMES
    ensures
      var mem' := Store(s, PtOf(s.mem, r, x).value, x.d, w).mem;
      && Walk(mem', r, x) == Mapped(w)
      && forall k: Key :: PathKept(s.mem, mem', role, k) && (k != Key(r, x) ==> SameAt(s.mem, mem', role, k))
  {
    var t := PtOf(s.mem, r, x).value;
    PtRole(s, role, r, x);
    var mem' := Store(s, t, x.d, w).mem;
    StoreWalk(s, role, t, x.d, w, r, x);
    forall k: Key ensures PathKept(s.mem, mem', role, k) && (k != Key(r, x) ==> SameAt(s.mem, mem', role, k)) {
      if IsProc(role, k.r) {
        StoreWalk(s, role, t, x.d, w, k.r, k.x);
        StorePaths(s, role, t, x.d, w, k.r, k.x);
      }
    }
  }

  lemma KeysCompose(m0: seq<Page>, m1: seq<Page>, m2: seq<Page>, r0: Roles, r1: Roles, l: Key)
    requires Procs(r1) == Procs(r0)
    requires forall k: Key :: PathKept(m0, m1, r0, k)
    requires forall k: Key :: SameAt(m0, m1, r0, k)
    requires forall k: Key :: PathKept(m1, m2, r1, k) && (k != l ==> SameAt(m1, m2, r1, k))
    ensures forall k: Key :: PathKept(m0, m2, r0, k)
    ensures forall k: Key :: k != l ==> SameAt(m0, m2, r0, k)
  {
    forall k: Key ensures PathKept(m0, m2, r0, k) && (k != l ==> SameAt(m0, m2, r0, k)) {
      SameProc(r0, r1, k.r);
      assert PathKept(m0, m1, r0, k) && SameAt(m0, m1, r0, k);
      assert PathKept(m1, m2, r1, k) && (k != l ==> SameAt(m1, m2, r1, k));
    }
  }

  /** Storing a leaf after growth is still only taking fresh frames for tables. */
  lemma StoreTakes(s0: State, r0: Roles, s: State, role: Roles, r: nat, x: Ix, w: Word)
    requires Grows(s0, r0, s, role) && IsProc(r0, r) && PtOf(s.mem, r, x).Some? && w.p
    requires w.pfn !in r0 && (Managed(w.pfn) ==> s0.used[w.pfn])
    ensures IsProc(role, r) && w.pfn !in role && (Managed(w.pfn) ==> s.used[w.pfn])
    ensures PtOf(s.mem, r, x).value < TOTAL_FRAMES
    ensures
      var s' := Store(s, PtOf(s.mem, r, x).value, x.d, w);
      && Takes(s0, r0, s', role)
      && forall k: Key :: k != Key(r, x) ==> SameAt(s0.mem, s'.mem, r0, k)
  {
    SameProc(r0, role, r);
    PtRole(s, role, r, x);
    StoreTree(s, role, PtOf(s.mem, r, x).value, x.d, w);
    StoreKeys(s, role, r, x, w);
    KeysCompose(s0.mem, s.mem, Store(s, PtOf(s.mem, r, x).value, x.d, w).mem, r0, role, Key(r, x));
  }

  lemma MapDone(s0: State, r0: Roles, s: State, role: Roles, r: nat, x: Ix, w: Word)
    requires Grows(s0, r0, s, role) && IsProc(r0, r) && PtOf(s.mem, r, x).Some? && w.p
    requires w.pfn !in r0 && (Managed(w.pfn) ==> s0.used[w.pfn])
    ensures PtOf(s.mem, r, x).value < TOTAL_FRAMES
    ensures MapsPage(s0, r0, Store(s, PtOf(s.mem, r, x).value, x.d, w), role, r, x, w)
  {
    StoreTakes(s0, r0, s, role, r, x, w);
    assert SameAt(s0.mem, s.mem, r0, Key(r, x));
    StoreView(s, role, r, x, w);
    StoreTrans(s, role, r, x, w);
    StoreKeys(s, role, r, x, w);
  }

  // ---------------------------------------------------------------------------
  // Data frames
  // ---------------------------------------------------------------------------

  /** A frame that is marked used but is neither a table nor mapped: safe to fill. */
  ghost predicate Spare(s: State, role: Roles, f: nat) {
    && WellFormed(s) && Managed(f) && s.used[f] && f !in role
    && Unshared(TransOf(s.mem, role), f)
  }

  /** Taking a free frame makes it spare and changes nothing else. */
  lemma TakeSpare(s: State, role: Roles, f: nat)
    requires Tree(s, role) && Managed(f) && !s.used[f]
    ensures
      var s' := s.(used := s.used[f := true]);
      Tree(s', role) && Spare(s', role, f)
  {
    var s' := s.(used := s.used[f := true]);
    forall g: nat, i: Index ensures EntryOk(s', role, g, i) { assert EntryOk(s, role, g, i); }
    forall g: nat ensures RoleOk(s', role, g) { assert RoleOk(s, role, g); }
    forall k | k in TransOf(s.mem, role) ensures TransOf(s.mem, role)[k].pfn != f { MappedOk(s, role, k); }
    assert RoleOk(s, role, f);
  }

  /** Filling a frame that is not a table leaves every walk alone. */
  lemma FillTrans(s: State, role: Roles, f: nat, pg: Page)
    requires Tree(s, role) && Managed(f) && f !in role
    ensures
      var s' := s.(mem := s.mem[f := pg]);
      && Tree(s', role) && TransOf(s'.mem, role) == TransOf(s.mem, role)
      && forall k: Key :: SameAt(s.mem, s'.mem, role, k) && PathKept(s.mem, s'.mem, role, k)
  {
    var s' := s.(mem := s.mem[f := pg]);
    forall g: nat, i: Index ensures EntryOk(s', role, g, i) { assert EntryOk(s, role, g, i); }
    forall g: nat ensures RoleOk(s', role, g) {
      assert RoleOk(s, role, g);
      if g in role { SameRole(s, s', role, g); }
    }
    forall g: nat, i: Index | IsBootPd(g) ensures At(s'.mem, g, i) == BootEntry(g, i) {
      assert At(s'.mem, g, i) == At(s.mem, g, i);
    }
    forall k: Key ensures SameAt(s.mem, s'.mem, role, k) && PathKept(s.mem, s'.mem, role, k) {
      if IsProc(role, k.r) { SameTables(s, s', role, k.r, k.x); }
    }
    TransSame(s.mem, s'.mem, role, role);
  }

  /** Filling a spare frame is invisible. */
  lemma FillSpare(s: State, role: Roles, f: nat, pg: Page)
    requires Tree(s, role) && Spare(s, role, f)
    ensures
      var s' := s.(mem := s.mem[f := pg]);
      && Tree(s', role) && Spare(s', role, f)
      && TransOf(s'.mem, role) == TransOf(s.mem, role)
      && ViewOf(s', role) == ViewOf(s, role)
  {
    FillTrans(s, role, f, pg);
    ViewSame(Procs(role), TransOf(s.mem, role), s.mem, s.mem[f := pg]);
  }

  /** Trees do not depend on the counters. */
  lemma CowTree(s: State, role: Roles, cow: seq<nat>)
    requires Tree(s, role) && |cow| == TOTAL_FRAMES
    ensures Tree(s.(cow := cow), role)
  {
    var s' := s.(cow := cow);
    forall g: nat, i: Index ensures EntryOk(s', role, g, i) { assert EntryOk(s, role, g, i); }
    forall g: nat ensures RoleOk(s', role, g) { assert RoleOk(s, role, g); }
  }

  /** Changing the page behind a writable entry changes that page for its owner only. */
  lemma WriteThrough(s: State, role: Roles, r: nat, x: Ix, pg: Page)
    requires Inv(s, role) && Key(r, x) in TransOf(s.mem, role) && TransOf(s.mem, role)[Key(r, x)].rw
    ensures
      var f := TransOf(s.mem, role)[Key(r, x)].pfn;
      && f < TOTAL_FRAMES && r in ViewOf(s, role)
      && var s' := s.(mem := s.mem[f := pg]);
        Inv(s', role) && ViewOf(s', role) == Put(ViewOf(s, role), r, x, pg)
  {
    var m := TransOf(s.mem, role);
    var f := m[Key(r, x)].pfn;
    assert LeafOk(Procs(role), m, Key(r, x));
    MappedOk(s, role, Key(r, x));
    FillTrans(s, role, f, pg);
    forall k | k in m && m[k].pfn == f ensures k == Key(r, x) {
      assert PairOk(m, Key(r, x), k);
    }
    ViewWrite(Procs(role), m, s.mem, r, x, pg);
    var mem' := s.mem[f := pg];
    forall k: Key ensures HugeOk(mem', role, k) {
      assert HugeOk(s.mem, role, k) && SameAt(s.mem, mem', role, k);
    }
  }
}
