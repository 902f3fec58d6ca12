/** What each kernel operation does to the invariant and to the view of every address space. */
module Steps {
  import opened Paging
  import opened Cow
  import opened Spaces

  lemma PutSame(v: map<nat, Space>, r: nat, x: Ix, pg: seq<Word>)
    requires r in v && x in v[r] && v[r][x] == pg
    ensures Put(v, r, x, pg) == v
  {
    assert v[r][x := pg] == v[r];
  }

  /** A page is in the view of `r` exactly when it is translated. */
  lemma ViewAt(s: State, role: Roles, r: nat, x: Ix)
    requires r in Procs(role)
    ensures r in ViewOf(s, role)
    ensures x in ViewOf(s, role)[r] <==> Key(r, x) in TransOf(s.mem, role)
    ensures x in ViewOf(s, role)[r] ==> ViewOf(s, role)[r][x] == PageAt(s.mem, TransOf(s.mem, role)[Key(r, x)].pfn)
  {}

  /** The page table holds exactly the translations of its pages. */
  lemma TransAt(s: State, role: Roles, r: nat, x: Ix)
    requires Tree(s, role) && IsProc(role, r)
    ensures PtOf(s.mem, r, x).None? ==> Key(r, x) !in TransOf(s.mem, role)
    ensures PtOf(s.mem, r, x).Some? ==>
      var e := At(s.mem, PtOf(s.mem, r, x).value, x.d);
      && (Key(r, x) in TransOf(s.mem, role) <==> e.p)
      && (e.p ==> TransOf(s.mem, role)[Key(r, x)] == e)
  {}

  lemma HugeKept(mem: seq<Page>, mem': seq<Page>, role: Roles, role': Roles)
    requires Procs(role') == Procs(role)
    requires forall k: Key :: HugeOk(mem, role, k)
    requires forall k: Key :: SameAt(mem, mem', role, k) || (!Walk(mem, k.r, k.x).Huge? && !Walk(mem', k.r, k.x).Huge?)
    ensures forall k: Key :: HugeOk(mem', role', k)
  {
    forall k: Key ensures HugeOk(mem', role', k) {
      SameProc(role, role', k.r);
      assert HugeOk(mem, role, k);
      assert SameAt(mem, mem', role, k) || (!Walk(mem, k.r, k.x).Huge? && !Walk(mem', k.r, k.x).Huge?);
    }
  }

  lemma GrowsInv(s: State, role: Roles, s': State, role': Roles)
    requires Inv(s, role) && Grows(s, role, s', role')
    ensures Inv(s', role')
  {
    HugeKept(s.mem, s'.mem, role, role');
  }

  /** Changing only free frames is invisible. */
  lemma QuietInv(s: State, s': State, role: Roles)
    requires Inv(s, role) && WellFormed(s') && s'.used == s.used && s'.cow == s.cow
    requires forall f: nat :: f < TOTAL_FRAMES && (Managed(f) ==> s.used[f]) ==> s'.mem[f] == s.mem[f]
    ensures Inv(s', role) && ViewOf(s', role) == ViewOf(s, role)
  {
    forall g: nat | g in role ensures Managed(g) && s.used[g] { assert RoleOk(s, role, g); }
    forall g: nat, i: Index ensures EntryOk(s', role, g, i) { assert EntryOk(s, role, g, i); }
    forall g: nat ensures RoleOk(s', role, g) {
      if g in role { SameRole(s, s', role, g); }
    }
    forall g: nat, i: Index | IsBootPd(g) ensures At(s'.mem, g, i) == BootEntry(g, i) {
      assert At(s'.mem, g, i) == At(s.mem, g, i);
    }
    forall k: Key ensures SameAt(s.mem, s'.mem, role, k) {
      if IsProc(role, k.r) { SameTables(s, s', role, k.r, k.x); }
    }
    TransSame(s.mem, s'.mem, role, role);
    ViewFrames(s, role, s'.mem);
    HugeKept(s.mem, s'.mem, role, role);
  }

  /** Taking and filling a free frame is invisible; the frame is then spare. */
  lemma FreshPage(s: State, role: Roles, f: nat, pg: Page)
    requires Inv(s, role) && Managed(f) && !s.used[f]
    ensures
      var s' := s.(used := s.used[f := true], mem := s.mem[f := pg]);
      && Inv(s', role) && Spare(s', role, f)
      && TransOf(s'.mem, role) == TransOf(s.mem, role)
      && ViewOf(s', role) == ViewOf(s, role)
      && forall k: Key :: PathKept(s.mem, s'.mem, role, k)
  {
    TakeSpare(s, role, f);
    var s1 := s.(used := s.used[f := true]);
    FillSpare(s1, role, f, pg);
    FillTrans(s1, role, f, pg);
    HugeKept(s.mem, s.mem[f := pg], role, role);
  }

  /** Mapping a spare frame writable. */
  lemma MapInv(s: State, role: Roles, s': State, role': Roles, r: nat, x: Ix, f: nat)
    requires Inv(s, role) && Spare(s, role, f) && MapsPage(s, role, s', role', r, x, Entry(f, 7))
    ensures Inv(s', role')
  {
    assert r in Procs(role);
    MapFresh(Procs(role), TransOf(s.mem, role), s.cow, Key(r, x), f);
    HugeKept(s.mem, s'.mem, role, role');
  }

  // ---------------------------------------------------------------------------
  // Fork, one page
  // ---------------------------------------------------------------------------

  /** Rewriting the flags of a present leaf keeps the view. */
  lemma Reflag(s: State, role: Roles, r: nat, x: Ix, w: Word)
    requires Tree(s, role) && Key(r, x) in TransOf(s.mem, role)
    requires w.p && w.pfn == TransOf(s.mem, role)[Key(r, x)].pfn
    ensures IsProc(role, r) && PtOf(s.mem, r, x).Some? && PtOf(s.mem, r, x).value < TOTAL_FRAMES
    ensures
      var s' := Store(s, PtOf(s.mem, r, x).value, x.d, w);
      && Tree(s', role)
      && TransOf(s'.mem, role) == TransOf(s.mem, role)[Key(r, x) := w]
      && ViewOf(s', role) == ViewOf(s, role)
      && (forall k: Key :: PathKept(s.mem, s'.mem, role, k))
      && (forall k: Key ::
            SameAt(s.mem, s'.mem, role, k) || (!Walk(s.mem, k.r, k.x).Huge? && !Walk(s'.mem, k.r, k.x).Huge?))
  {
    MappedOk(s, role, Key(r, x));
    TransAt(s, role, r, x);
    StoreTrans(s, role, r, x, w);
    StoreView(s, role, r, x, w);
    StoreKeys(s, role, r, x, w);
    ViewAt(s, role, r, x);
    PutSame(ViewOf(s, role), r, x, PageAt(s.mem, w.pfn));
  }

  /** A counter may be set on a mapped frame. */
  lemma TidyMapped(s: State, role: Roles, k: Key, c: nat)
    requires Inv(s, role) && k in TransOf(s.mem, role) && TransOf(s.mem, role)[k].pfn < TOTAL_FRAMES
    ensures Tidy(s.used, s.cow[TransOf(s.mem, role)[k].pfn := c], role)
  {
    MappedOk(s, role, k);
    assert LeafOk(Procs(role), TransOf(s.mem, role), k);
    TidySet(s.used, s.cow, role, TransOf(s.mem, role)[k].pfn, c);
  }

  /** The parent's entry made read-only and copy-on-write, the counter raised, no child entry. */
  lemma ProtectInv(s: State, role: Roles, r: nat, x: Ix, c: nat)
    requires Inv(s, role) && Key(r, x) in TransOf(s.mem, role) && Low(x)
    requires TransOf(s.mem, role)[Key(r, x)].pfn < TOTAL_FRAMES
    requires s.cow[TransOf(s.mem, role)[Key(r, x)].pfn] <= c <= 255
    ensures PtOf(s.mem, r, x).Some? && PtOf(s.mem, r, x).value < TOTAL_FRAMES
    ensures
      var f := TransOf(s.mem, role)[Key(r, x)].pfn;
      Inv(Store(s, PtOf(s.mem, r, x).value, x.d, Entry(f, 0x205)).(cow := s.cow[f := c]), role)
  {
    var f := TransOf(s.mem, role)[Key(r, x)].pfn;
    TidyMapped(s, role, Key(r, x), c);
    Reflag(s, role, r, x, Entry(f, 0x205));
    Protect(Procs(role), TransOf(s.mem, role), s.cow, Key(r, x), c);
    var s' := Store(s, PtOf(s.mem, r, x).value, x.d, Entry(f, 0x205));
    HugeKept(s.mem, s'.mem, role, role);
    CowTree(s', role, s.cow[f := c]);
  }

  /** What the fork loop needs to touch the parent's entry of page `x` and to map its frame elsewhere. */
  lemma ShareReady(s: State, role: Roles, p: nat, x: Ix)
    requires Inv(s, role) && p in Procs(role) && PtOf(s.mem, p, x).Some? && PtOf(s.mem, p, x).value < TOTAL_FRAMES
    requires At(s.mem, PtOf(s.mem, p, x).value, x.d).p
    ensures
      var f := At(s.mem, PtOf(s.mem, p, x).value, x.d).pfn;
      && Key(p, x) in TransOf(s.mem, role) && TransOf(s.mem, role)[Key(p, x)].pfn == f
      && Managed(f) && f !in role && s.used[f]
      && Tree(Store(s, PtOf(s.mem, p, x).value, x.d, Entry(f, 0x205)), role)
  {
    TransAt(s, role, p, x);
    MappedOk(s, role, Key(p, x));
    assert LeafOk(Procs(role), TransOf(s.mem, role), Key(p, x));
    Reflag(s, role, p, x, Entry(TransOf(s.mem, role)[Key(p, x)].pfn, 0x205));
  }

  /** A page in use is no table afterwards either. */
  lemma TakesKeeps(s: State, role: Roles, s': State, role': Roles, f: nat)
    requires Takes(s, role, s', role') && f < TOTAL_FRAMES && s.used[f] && f !in role
    ensures s'.used[f] && f !in role'
  {}

  /** Parent protected (s to s1), child mapped (s1 to s2), counter raised: the child now has the parent's page. */
  lemma ShareInv(s: State, role: Roles, s1: State, s2: State, role2: Roles, p: nat, c: nat, x: Ix)
    requires Inv(s, role) && p in Procs(role) && c in Procs(role) && p != c && |Procs(role)| <= 255 && Low(x)
    requires Key(p, x) in TransOf(s.mem, role) && Key(c, x) !in TransOf(s.mem, role)
    requires PtOf(s.mem, p, x).Some? && PtOf(s.mem, p, x).value < TOTAL_FRAMES
    requires var f := TransOf(s.mem, role)[Key(p, x)].pfn;
      && s1 == Store(s, PtOf(s.mem, p, x).value, x.d, Entry(f, 0x205))
      && MapsPage(s1, role, s2, role2, c, x, Entry(f, 0x205))
    ensures var f := TransOf(s.mem, role)[Key(p, x)].pfn;
      && f < TOTAL_FRAMES && c in ViewOf(s, role)
      && var s3 := s2.(cow := s2.cow[f := Bump(s2.cow[f])]);
        && Inv(s3, role2)
        && ViewOf(s3, role2) == Put(ViewOf(s, role), c, x, PageAt(s.mem, f))
  {
    var m := TransOf(s.mem, role);
    var f := m[Key(p, x)].pfn;
    assert LeafOk(Procs(role), m, Key(p, x));
    MappedOk(s, role, Key(p, x));
    Reflag(s, role, p, x, Entry(f, 0x205));
    var cow := s2.cow[f := Bump(s2.cow[f])];
    assert CowOk(Procs(role2), TransOf(s2.mem, role2), cow) by { SharePage(Procs(role), m, s.cow, p, c, x); }
    ShareHuge(s, role, s1, s2, role2, c, x, Entry(f, 0x205));
    ShareTidy(s, role, s1, s2, role2, c, x, Entry(f, 0x205), f);
    CowTree(s2, role2, cow);
    assert PageAt(s1.mem, f) == PageAt(s.mem, f) by { PtRole(s, role, p, x); }
  }

  lemma ShareHuge(s: State, role: Roles, s1: State, s2: State, role2: Roles, c: nat, x: Ix, w: Word)
    requires Inv(s, role) && MapsPage(s1, role, s2, role2, c, x, w)
    requires forall k: Key ::
      SameAt(s.mem, s1.mem, role, k) || (!Walk(s.mem, k.r, k.x).Huge? && !Walk(s1.mem, k.r, k.x).Huge?)
    ensures forall k: Key :: HugeOk(s2.mem, role2, k)
  {
    HugeKept(s.mem, s1.mem, role, role);
    HugeKept(s1.mem, s2.mem, role, role2);
  }

  lemma ShareTidy(s: State, role: Roles, s1: State, s2: State, role2: Roles, c: nat, x: Ix, w: Word, f: nat)
    requires Inv(s, role) && s1.used == s.used && s1.cow == s.cow && MapsPage(s1, role, s2, role2, c, x, w)
    requires f < TOTAL_FRAMES && s.used[f] && f !in role
    ensures f < |s2.cow| && Tidy(s2.used, s2.cow[f := Bump(s2.cow[f])], role2)
  {
    TidyTakes(s1, role, s2, role2);
    TakesKeeps(s1, role, s2, role2, f);
    TidySet(s2.used, s2.cow, role2, f, Bump(s2.cow[f]));
  }

  /** The counters play no part in growth. */
  lemma GrowsCow(s1: State, role: Roles, s2: State, role2: Roles, cow: seq<nat>)
    requires Grows(s1, role, s2, role2) && |cow| == TOTAL_FRAMES
    ensures Grows(s1.(cow := cow), role, s2.(cow := cow), role2)
  {
    CowTree(s1, role, cow);
    CowTree(s2, role2, cow);
  }

  /** Where the parent has a 4KB page the child has no 2MB entry, before and after the attempt. */
  lemma ShareNotHuge(s: State, role: Roles, s1: State, s2: State, role2: Roles, p: nat, c: nat, x: Ix)
    requires Inv(s, role) && c in Procs(role) && Low(x) && Key(p, x) in TransOf(s.mem, role)
    requires forall k: Key ::
      SameAt(s.mem, s1.mem, role, k) || (!Walk(s.mem, k.r, k.x).Huge? && !Walk(s1.mem, k.r, k.x).Huge?)
    requires Grows(s1, role, s2, role2)
    ensures !Walk(s2.mem, c, x).Huge?
  {
    assert HugeOk(s.mem, role, Key(p, x)) && HugeOk(s.mem, role, Key(c, x));
    assert SameAt(s.mem, s1.mem, role, Key(c, x)) || !Walk(s1.mem, Key(c, x).r, Key(c, x).x).Huge?;
    assert SameAt(s1.mem, s2.mem, role, Key(c, x));
  }

  /** Parent protected, child not mapped: nothing visible changed, and a full bitmap is the only reason. */
  lemma ShareFailInv(s: State, role: Roles, s1: State, s2: State, role2: Roles, p: nat, c: nat, x: Ix)
    requires Inv(s, role) && p in Procs(role) && c in Procs(role) && Low(x)
    requires Key(p, x) in TransOf(s.mem, role)
    requires PtOf(s.mem, p, x).Some? && PtOf(s.mem, p, x).value < TOTAL_FRAMES
    requires var f := TransOf(s.mem, role)[Key(p, x)].pfn;
      && s1 == Store(s, PtOf(s.mem, p, x).value, x.d, Entry(f, 0x205))
      && Grows(s1, role, s2, role2)
    ensures !Walk(s2.mem, c, x).Huge?
    ensures var f := TransOf(s.mem, role)[Key(p, x)].pfn;
      && f < TOTAL_FRAMES
      && var s3 := s2.(cow := s2.cow[f := Bump(s2.cow[f])]);
        Inv(s3, role2) && ViewOf(s3, role2) == ViewOf(s, role)
  {
    var f := TransOf(s.mem, role)[Key(p, x)].pfn;
    assert LeafOk(Procs(role), TransOf(s.mem, role), Key(p, x));
    var cow := s.cow[f := Bump(s.cow[f])];
    Reflag(s, role, p, x, Entry(f, 0x205));
    ShareNotHuge(s, role, s1, s2, role2, p, c, x);
    ProtectInv(s, role, p, x, Bump(s.cow[f]));
    GrowsCow(s1, role, s2, role2, cow);
    GrowsInv(s1.(cow := cow), role, s2.(cow := cow), role2);
  }

  /** Marks only grow and ways down stay: what the fork loop relies on between pages. */
  ghost predicate Steady(s: State, role: Roles, s': State, role': Roles) {
    && WellFormed(s) && WellFormed(s')
    && Procs(role') == Procs(role)
    && (forall f :: 0 <= f < TOTAL_FRAMES ==> (s.used[f] ==> s'.used[f]))
    && (forall k: Key :: PathKept(s.mem, s'.mem, role, k))
  }

  lemma SteadyTrans(s0: State, r0: Roles, s1: State, r1: Roles, s2: State, r2: Roles)
    requires Steady(s0, r0, s1, r1) && Steady(s1, r1, s2, r2)
    ensures Steady(s0, r0, s2, r2)
  {
    forall k: Key ensures PathKept(s0.mem, s2.mem, r0, k) {
      SameProc(r0, r1, k.r);
      assert PathKept(s0.mem, s1.mem, r0, k) && PathKept(s1.mem, s2.mem, r1, k);
    }
  }

  lemma SteadyRefl(s: State, role: Roles)
    requires WellFormed(s)
    ensures Steady(s, role, s, role)
  {}

  lemma SteadyPt(s: State, role: Roles, s': State, role': Roles, r: nat, x: Ix, y: Ix)
    requires Steady(s, role, s', role') && r in Procs(role) && PtOf(s.mem, r, x).Some?
    requires x.a == y.a && x.b == y.b && x.c == y.c
    ensures PtOf(s'.mem, r, y) == PtOf(s.mem, r, x)
  {
    assert PathKept(s.mem, s'.mem, role, Key(r, x));
  }

  lemma SteadyPd(s: State, role: Roles, s': State, role': Roles, r: nat, x: Ix, y: Ix)
    requires Steady(s, role, s', role') && r in Procs(role) && PdOf(s.mem, r, x).Some?
    requires x.a == y.a && x.b == y.b
    ensures PdOf(s'.mem, r, y) == PdOf(s.mem, r, x)
  {
    assert PathKept(s.mem, s'.mem, role, Key(r, x));
  }

  /** Fork's treatment of one page, whether or not the child's entry could be made. */
  ghost predicate SharesPage(s: State, role: Roles, s': State, role': Roles, p: nat, c: nat, x: Ix, ok: bool) {
    && Inv(s', role') && Steady(s, role, s', role')
    && p in ViewOf(s, role) && c in ViewOf(s, role) && x in ViewOf(s, role)[p]
    && ViewOf(s', role') == (if ok then Put(ViewOf(s, role), c, x, ViewOf(s, role)[p][x]) else ViewOf(s, role))
  }

  lemma ShareSteady(s: State, role: Roles, s1: State, s2: State, role2: Roles, p: nat, c: nat, x: Ix, ok: bool,
      cow: seq<nat>)
    requires Inv(s, role) && |cow| == TOTAL_FRAMES
    requires Key(p, x) in TransOf(s.mem, role)
    requires PtOf(s.mem, p, x).Some? && PtOf(s.mem, p, x).value < TOTAL_FRAMES
    requires var f := TransOf(s.mem, role)[Key(p, x)].pfn;
      && s1 == Store(s, PtOf(s.mem, p, x).value, x.d, Entry(f, 0x205))
      && (if ok then MapsPage(s1, role, s2, role2, c, x, Entry(f, 0x205)) else Grows(s1, role, s2, role2))
    ensures Steady(s, role, s2.(cow := cow), role2)
  {
    Reflag(s, role, p, x, Entry(TransOf(s.mem, role)[Key(p, x)].pfn, 0x205));
    TakesSteady(s1, role, s2, role2);
    SteadyTrans(s, role, s1, role, s2, role2);
  }

  lemma TakesSteady(s: State, role: Roles, s': State, role': Roles)
    requires Takes(s, role, s', role')
    ensures Steady(s, role, s', role')
  {}

  lemma ShareDone(s: State, role: Roles, s1: State, s2: State, role2: Roles, p: nat, c: nat, x: Ix, ok: bool, s3: State)
    requires Inv(s, role) && p in Procs(role) && c in Procs(role) && p != c && |Procs(role)| <= 255 && Low(x)
    requires Key(p, x) in TransOf(s.mem, role) && Key(c, x) !in TransOf(s.mem, role)
    requires PtOf(s.mem, p, x).Some? && PtOf(s.mem, p, x).value < TOTAL_FRAMES
    requires var f := TransOf(s.mem, role)[Key(p, x)].pfn;
      && s1 == Store(s, PtOf(s.mem, p, x).value, x.d, Entry(f, 0x205))
      && (if ok then MapsPage(s1, role, s2, role2, c, x, Entry(f, 0x205)) else Grows(s1, role, s2, role2))
      && f < |s2.cow| && s3 == s2.(cow := s2.cow[f := Bump(s2.cow[f])])
    ensures !ok ==> !Walk(s2.mem, c, x).Huge?
    ensures SharesPage(s, role, s3, role2, p, c, x, ok)
  {
    var f := TransOf(s.mem, role)[Key(p, x)].pfn;
    if ok { ShareInv(s, role, s1, s2, role2, p, c, x); } else { ShareFailInv(s, role, s1, s2, role2, p, c, x); }
    ViewAt(s, role, p, x);
    ShareSteady(s, role, s1, s2, role2, p, c, x, ok, s2.cow[f := Bump(s2.cow[f])]);
  }

  // ---------------------------------------------------------------------------
  // Fork, all pages
  // ---------------------------------------------------------------------------

  /** No page table at a directory slot, no pages there. */
  lemma NoTablePages(s: State, role: Roles, r: nat, i: Index)
    requires Tree(s, role) && IsProc(role, r) && PtOf(s.mem, r, Ix(0, 0, i, 0)).None?
    ensures r in ViewOf(s, role) && forall d: Index :: Ix(0, 0, i, d) !in ViewOf(s, role)[r]
  {
    assert r in Procs(role);
    forall d: Index ensures Ix(0, 0, i, d) !in ViewOf(s, role)[r] {
      assert PtOf(s.mem, r, Ix(0, 0, i, d)) == PtOf(s.mem, r, Ix(0, 0, i, 0));
      TransAt(s, role, r, Ix(0, 0, i, d));
      ViewAt(s, role, r, Ix(0, 0, i, d));
    }
  }

  lemma NoLowPages(s: State, role: Roles, r: nat)
    requires Tree(s, role) && IsProc(role, r) && PdOf(s.mem, r, Ix(0, 0, 0, 0)).None?
    ensures r in ViewOf(s, role) && forall y :: Low(y) ==> y !in ViewOf(s, role)[r]
  {
    assert r in Procs(role);
    forall y | Low(y) ensures y !in ViewOf(s, role)[r] {
      assert PdOf(s.mem, r, y) == PdOf(s.mem, r, Ix(0, 0, 0, 0));
      TransAt(s, role, r, y);
      ViewAt(s, role, r, y);
    }
  }

  /** Pages visited before directory slot `i`, table slot `j`. */
  predicate Before(y: Ix, i: nat, j: nat) {
    Low(y) && (y.c < i || (y.c == i && y.d < j))
  }

  /** From view `v0`, only the child changed: it holds parent pages visited so far, all of them if `full`. */
  ghost predicate CopiedTo(v0: map<nat, Space>, v: map<nat, Space>, p: nat, c: nat, i: nat, j: nat, full: bool) {
    && p != c && p in v0 && c in v0 && c in v
    && v == v0[c := v[c]]
    && (forall y :: y in v[c] ==> Before(y, i, j) && y in v0[p] && v[c][y] == v0[p][y])
    && (full ==> forall y :: y in v0[p] && Before(y, i, j) ==> y in v[c])
  }

  lemma CopiedStart(v0: map<nat, Space>, p: nat, c: nat, i: nat, full: bool)
    requires p != c && p in v0 && c in v0 && v0[c] == imap[]
    requires i == 0 || forall y :: Low(y) ==> y !in v0[p]
    ensures CopiedTo(v0, v0, p, c, i, 0, full)
  {}

  lemma CopiedShare(v0: map<nat, Space>, v: map<nat, Space>, p: nat, c: nat, i: Index, j: Index, full: bool)
    requires CopiedTo(v0, v, p, c, i, j, full) && p in v && Ix(0, 0, i, j) in v[p]
    ensures CopiedTo(v0, Put(v, c, Ix(0, 0, i, j), v[p][Ix(0, 0, i, j)]), p, c, i, j + 1, full)
  {
    var v' := Put(v, c, Ix(0, 0, i, j), v[p][Ix(0, 0, i, j)]);
    assert v' == v0[c := v'[c]];
  }

  lemma CopiedSkip(v0: map<nat, Space>, v: map<nat, Space>, p: nat, c: nat, i: Index, j: Index, full: bool)
    requires CopiedTo(v0, v, p, c, i, j, full) && (full ==> Ix(0, 0, i, j) !in v0[p])
    ensures CopiedTo(v0, v, p, c, i, j + 1, full)
  {}

  /** A slot without an entry is a page the parent does not have. */
  lemma SkipCopied(v0: map<nat, Space>, s: State, role: Roles, p: nat, c: nat, i: Index, j: Index, full: bool)
    requires Inv(s, role) && p in Procs(role) && PtOf(s.mem, p, Ix(0, 0, i, j)).Some?
    requires var e := At(s.mem, PtOf(s.mem, p, Ix(0, 0, i, j)).value, j); !(e.p && e.pfn >= RESERVED)
    requires CopiedTo(v0, ViewOf(s, role), p, c, i, j, full)
    ensures CopiedTo(v0, ViewOf(s, role), p, c, i, j + 1, full)
  {
    var x := Ix(0, 0, i, j);
    TransAt(s, role, p, x);
    ViewAt(s, role, p, x);
    assert LeafOk(Procs(role), TransOf(s.mem, role), Key(p, x));
    CopiedSkip(v0, ViewOf(s, role), p, c, i, j, full);
  }

  /** A page not visited yet is not in the child. */
  lemma ChildLacks(v0: map<nat, Space>, s: State, role: Roles, p: nat, c: nat, i: Index, j: Index, full: bool)
    requires c in Procs(role) && CopiedTo(v0, ViewOf(s, role), p, c, i, j, full)
    ensures Key(c, Ix(0, 0, i, j)) !in TransOf(s.mem, role)
  {
    ViewAt(s, role, c, Ix(0, 0, i, j));
  }

  /** A finished or missing table: on to the next directory slot. */
  lemma CopiedRow(v0: map<nat, Space>, v: map<nat, Space>, p: nat, c: nat, i: Index, j: nat, full: bool)
    requires CopiedTo(v0, v, p, c, i, j, full)
    requires j == 512 || forall d: Index :: Ix(0, 0, i, d) !in v0[p]
    ensures CopiedTo(v0, v, p, c, i + 1, 0, full)
  {
    if full {
      forall y | y in v0[p] && Before(y, i + 1, 0) ensures y in v[c] {
        if y.c == i { assert y == Ix(0, 0, i, y.d); }
      }
    }
  }

  lemma CopiedWeaken(v0: map<nat, Space>, v: map<nat, Space>, p: nat, c: nat, i: nat, j: nat, full: bool, full': bool)
    requires CopiedTo(v0, v, p, c, i, j, full) && (full' ==> full)
    ensures CopiedTo(v0, v, p, c, i, j, full')
  {}

  // ---------------------------------------------------------------------------
  // Write faults
  // ---------------------------------------------------------------------------

  /** Page `x` of the table `t` moved from frame `f` to a copy in frame `g`. */
  function Moved(s: State, t: nat, d: Index, f: nat, g: nat): State
    requires WellFormed(s) && t < TOTAL_FRAMES && f < TOTAL_FRAMES && g < TOTAL_FRAMES && s.cow[f] > 0
  {
    Store(s.(used := s.used[g := true], mem := s.mem[g := s.mem[f]]), t, d,
        Entry(g, 7)).(cow := s.cow[f := s.cow[f] - 1])
  }

  /** What serving a fault does to entries, frames and counters: a page whose counter is above one moves to a frame that
      was free, and the counter goes down by one; otherwise the entry becomes writable and nothing else changes. */
  ghost predicate Serves(s: State, role: Roles, s': State, r: nat, x: Ix) {
    var m, m', k := TransOf(s.mem, role), TransOf(s'.mem, role), Key(r, x);
    && k in m && m[k].pfn < |s.cow| && k in m'
    && var f, g := m[k].pfn, m'[k].pfn;
      if s.cow[f] > 1 then
        && g < |s.used| && !s.used[g] && s'.used == s.used[g := true] && s'.cow == s.cow[f := s.cow[f] - 1]
        && m' == m[k := Entry(g, 7)]
      else s'.used == s.used && s'.cow == s.cow && m' == m[k := Entry(f, 7)]
  }

  /** A fault served by a private copy: no address space sees a difference, and the entry is writable. */
  lemma FaultCopyInv(s: State, role: Roles, r: nat, x: Ix, g: nat)
    requires Inv(s, role) && Key(r, x) in TransOf(s.mem, role) && Managed(g) && !s.used[g]
    requires TransOf(s.mem, role)[Key(r, x)].pfn < TOTAL_FRAMES && s.cow[TransOf(s.mem, role)[Key(r, x)].pfn] > 1
    ensures PtOf(s.mem, r, x).Some? && PtOf(s.mem, r, x).value < TOTAL_FRAMES && PtOf(s.mem, r, x).value != g
    ensures
      var s' := Moved(s, PtOf(s.mem, r, x).value, x.d, TransOf(s.mem, role)[Key(r, x)].pfn, g);
      && Inv(s', role)
      && ViewOf(s', role) == ViewOf(s, role)
      && TransOf(s'.mem, role) == TransOf(s.mem, role)[Key(r, x) := Entry(g, 7)]
      && Serves(s, role, s', r, x)
  {
    var m := TransOf(s.mem, role);
    var f := m[Key(r, x)].pfn;
    MappedOk(s, role, Key(r, x));
    TransAt(s, role, r, x);
    PtRole(s, role, r, x);
    FreshPage(s, role, g, s.mem[f]);
    var s1 := s.(used := s.used[g := true], mem := s.mem[g := s.mem[f]]);
    assert PathKept(s.mem, s1.mem, role, Key(r, x));
    StoreTrans(s1, role, r, x, Entry(g, 7));
    StoreView(s1, role, r, x, Entry(g, 7));
    StoreKeys(s1, role, r, x, Entry(g, 7));
    ViewAt(s, role, r, x);
    PutSame(ViewOf(s, role), r, x, s.mem[f]);
    FaultCopy(Procs(role), m, s.cow, Key(r, x), g);
    var s2 := Store(s1, PtOf(s.mem, r, x).value, x.d, Entry(g, 7));
    FaultHuge(s1, s2, role, r, x);
    TidySet(s1.used, s1.cow, role, f, s.cow[f] - 1);
    CowTree(s2, role, s.cow[f := s.cow[f] - 1]);
  }

  lemma FaultHuge(s1: State, s2: State, role: Roles, r: nat, x: Ix)
    requires Inv(s1, role) && Key(r, x) in TransOf(s1.mem, role) && Walk(s2.mem, r, x).Mapped?
    requires forall k: Key :: k != Key(r, x) ==> SameAt(s1.mem, s2.mem, role, k)
    ensures forall k: Key :: HugeOk(s2.mem, role, k)
  {
    HugeKept(s1.mem, s2.mem, role, role);
  }

  /** The same frames are taken, counted and mapped where they were. */
  ghost predicate SameFrames(s: State, s': State, role: Roles) {
    && s'.used == s.used && s'.cow == s.cow
    && var m, m' := TransOf(s.mem, role), TransOf(s'.mem, role);
      forall k :: (k in m' <==> k in m) && (k in m ==> m'[k].pfn == m[k].pfn)
  }

  lemma SameFramesTrans(s0: State, s1: State, s2: State, role: Roles)
    requires SameFrames(s0, s1, role) && SameFrames(s1, s2, role)
    ensures SameFrames(s0, s2, role)
  {}

  /** The frame of a page, if there is one, is counted for nobody else. */
  ghost predicate Alone(s: State, role: Roles, r: nat, x: Ix) {
    var m := TransOf(s.mem, role);
    Key(r, x) in m ==> m[Key(r, x)].pfn < |s.cow| && s.cow[m[Key(r, x)].pfn] <= 1
  }

  /** A fault of the last sharer: the entry becomes writable in place. */
  lemma FaultOwnInv(s: State, role: Roles, r: nat, x: Ix)
    requires Inv(s, role) && Key(r, x) in TransOf(s.mem, role)
    requires TransOf(s.mem, role)[Key(r, x)].pfn < TOTAL_FRAMES && s.cow[TransOf(s.mem, role)[Key(r, x)].pfn] <= 1
    ensures PtOf(s.mem, r, x).Some? && PtOf(s.mem, r, x).value < TOTAL_FRAMES
    ensures
      var f := TransOf(s.mem, role)[Key(r, x)].pfn;
      var s' := Store(s, PtOf(s.mem, r, x).value, x.d, Entry(f, 7));
      && Inv(s', role)
      && ViewOf(s', role) == ViewOf(s, role)
      && TransOf(s'.mem, role) == TransOf(s.mem, role)[Key(r, x) := Entry(f, 7)]
      && SameFrames(s, s', role) && Serves(s, role, s', r, x)
  {
    var f := TransOf(s.mem, role)[Key(r, x)].pfn;
    Reflag(s, role, r, x, Entry(f, 7));
    FaultOwn(Procs(role), TransOf(s.mem, role), s.cow, Key(r, x));
    HugeKept(s.mem, Store(s, PtOf(s.mem, r, x).value, x.d, Entry(f, 7)).mem, role, role);
  }
}
