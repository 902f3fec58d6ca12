/** `elf_load` (src/kernel/elf_loader.c) on the page tables of the memory manager. */
module Loader {
  import opened Bytes
  import opened Paging
  import opened Cow
  import opened Spaces
  import opened Vmm
  import opened Processes
  import opened WordBytes
  import opened Elf

  // ---------------------------------------------------------------------------
  // Tables and pages
  // ---------------------------------------------------------------------------

  lemma DirsThere(s: State, role: Roles, r: nat, x: Ix)
    requires Inv(s, role) && IsProc(role, r) && !HugeIx(x)
    ensures var e4, t := At(s.mem, r, x.a), TablesOf(role, r);
            (e4.p <==> Pdpt(r, x.a) in t) && (e4.p && At(s.mem, e4.pfn, x.b).p <==> Pd(r, x.a, x.b) in t)
  {
    WalkRoles(s, role, r, x);
    assert HugeOk(s.mem, role, Key(r, x));
    if f :| f in role && role[f] == Pdpt(r, x.a) { assert RoleOk(s, role, f); }
    if f :| f in role && role[f] == Pd(r, x.a, x.b) { assert RoleOk(s, role, f); }
  }

  lemma TableThere(s: State, role: Roles, r: nat, x: Ix)
    requires Inv(s, role) && IsProc(role, r) && !HugeIx(x)
    ensures PtOf(s.mem, r, x).Some? <==> Pt(r, x.a, x.b, x.c) in TablesOf(role, r)
  {
    if PtOf(s.mem, r, x).Some? { PtRole(s, role, r, x); }
    if f :| f in role && role[f] == Pt(r, x.a, x.b, x.c) { assert RoleOk(s, role, f); }
  }

  lemma MissingTable(s: State, role: Roles, r: nat, x: Ix)
    requires Inv(s, role) && IsProc(role, r) && !HugeIx(x) && MissingDirs(s.mem, r, x) == 0
    ensures Missing(s.mem, r, x) == if PtOf(s.mem, r, x).Some? then 0 else 1
  {
    WalkRoles(s, role, r, x);
    assert HugeOk(s.mem, role, Key(r, x));
    assert EntryOk(s, role, PdOf(s.mem, r, x).value, x.c);
  }

  /** The tables a mapping must take are those the address space lacks. */
  lemma MissingIs(s: State, role: Roles, r: nat, x: Ix)
    requires Inv(s, role) && IsProc(role, r) && !HugeIx(x)
    ensures Missing(s.mem, r, x) == Lacks(TablesOf(role, r), r, x)
  {
    DirsThere(s, role, r, x);
    TableThere(s, role, r, x);
    if MissingDirs(s.mem, r, x) == 0 { MissingTable(s, role, r, x); }
  }

  lemma HugeMissing(s: State, role: Roles, r: nat, x: Ix)
    requires Inv(s, role) && IsProc(role, r) && HugeIx(x)
    ensures Missing(s.mem, r, x) == 0
  {
    assert HugeOk(s.mem, role, Key(r, x));
    MissingFrom(s.mem, r, x);
  }

  lemma WayThere(s: State, role: Roles, r: nat, x: Ix)
    requires Tree(s, role) && IsProc(role, r) && Walk(s.mem, r, x).Mapped?
    ensures Way(r, x) <= TablesOf(role, r)
  {
    WalkRoles(s, role, r, x);
  }

  /** After a mapping the address space has exactly the tables on the way besides its old ones. */
  lemma TablesGrow(s: State, role: Roles, s': State, role': Roles, r: nat, x: Ix, w: Word)
    requires MapsPage(s, role, s', role', r, x, w) && NewOn(role, role', r, x)
    ensures TablesOf(role', r) == TablesOf(role, r) + Way(r, x)
  {
    SameProc(role, role', r);
    WayThere(s', role', r, x);
    TablesBetween(role, role', r, x);
  }

  lemma TablesBetween(role: Roles, role': Roles, r: nat, x: Ix)
    requires NewOn(role, role', r, x) && (forall f :: f in role ==> f in role' && role'[f] == role[f])
      && Way(r, x) <= TablesOf(role', r)
    ensures TablesOf(role', r) == TablesOf(role, r) + Way(r, x)
  {
    forall q ensures q in TablesOf(role', r) <==> q in TablesOf(role, r) + Way(r, x) {
      if f :| f in role && role[f] == q && q.r == r { assert f in role' && role'[f] == q; }
    }
  }

  lemma BytesPut(sp: Space, x: Ix, pg: seq<Word>)
    ensures BytesIn(sp[x := pg]) == BytesIn(sp)[x := PageBytes(pg)]
  {}

  // ---------------------------------------------------------------------------
  // The machine and the count
  // ---------------------------------------------------------------------------

  ghost function StartOf(s: State, role: Roles, v: Views, r: nat): Progress
    requires WellFormed(s) && r in v
  {
    Progress(true, 0, Free(s), TablesOf(role, r), BytesIn(v[r]))
  }

  /** The address space r is as counted, and every other one is as in v0. Tables no longer matter once no frame is
      left. */
  ghost predicate Tied(free: nat, tables: set<Role>, v: Views, r: nat, v0: Views, st: Progress) {
    && r in v && free == st.free && (free == 0 || tables == st.tables)
    && BytesIn(v[r]) == st.sees && v == v0[r := v[r]]
  }

  ghost predicate TiedTo(m: Machine, r: nat, v0: Views, st: Progress)
    reads m, m.bitmap, m.cowCnt, m.frames
  {
    Good(m) && IsProc(m.role, r) && Tied(Free(m.S()), TablesOf(m.role, r), ViewsOf(m), r, v0, st)
  }

  /** What mapping a taken frame filled with pg leaves, if n tables are missing. */
  ghost predicate Mapping(free: nat, t: set<Role>, v: Views, free': nat, t': set<Role>, v': Views, r: nat, x: Ix,
      n: nat, pg: Page) {
    var ok := !HugeIx(x) && free >= 1 + n;
    && free' == Less(free, 1 + n) && (HugeIx(x) ==> t' == t) && (ok ==> t' == t + Way(r, x))
    && r in v && v' == if ok then Put(v, r, x, pg) else v
  }

  lemma Advanced(free: nat, t: set<Role>, v: Views, free': nat, t': set<Role>, v': Views, r: nat, v0: Views,
      im: Image, l: Load, n: nat, pg: Page, st: Progress)
    requires Tied(free, t, v, r, v0, st) && free > 0 && n == if HugeIx(IxOf(l.vp)) then 0 else Lacks(t, r, IxOf(l.vp))
    requires Mapping(free, t, v, free', t', v', r, IxOf(l.vp), n, pg) && PageBytes(pg) == PageOf(im, l)
    ensures Tied(free', t', v', r, v0, LoadOne(im, l, r, st))
  {
    BytesPut(v[r], IxOf(l.vp), pg);
  }

  // ---------------------------------------------------------------------------
  // The loader
  // ---------------------------------------------------------------------------

  /** The bytes `was` with the first len bytes from position src of the image written from position off. */
  function CopiedInto(was: seq<byte>, off: nat, im: Image, src: nat, len: nat): (now: seq<byte>)
    requires off + len <= |was|
    ensures |now| == |was|
    decreases len, |was|
  {
    if len == 0 then was else CopiedInto(was, off, im, src, len - 1)[off + len - 1 := ByteAt(im, src + len - 1)]
  }

  lemma {:induction false} CopiedAt(was: seq<byte>, off: nat, im: Image, src: nat, len: nat, j: nat)
    requires off + len <= |was| && j < |was|
    ensures CopiedInto(was, off, im, src, len)[j] == if off <= j < off + len then ByteAt(im, src + (j - off))
      else was[j]
    decreases len
  {
    if len > 0 { CopiedAt(was, off, im, src, len - 1, j); }
  }

  /** `vmm_copy_to_frame`. */
  method CopyToFrame(m: Machine, f: nat, off: nat, im: Image, src: nat, len: nat) returns (ghost pg: Page)
    requires m.Shape() && f < TOTAL_FRAMES && off + len <= PAGE
    modifies m.frames
    ensures m.S() == old(m.S()).(mem := old(m.S().mem)[f := pg])
    ensures PageBytes(pg) == CopiedInto(PageBytes(old(m.S().mem)[f]), off, im, src, len)
  {
    ghost var s := m.S();
    ghost var was := PageBytes(s.mem[f]);
    pg := s.mem[f];
    FillSame(s, f);
    for i := 0 to len
      invariant m.S() == s.(mem := s.mem[f := pg]) && Copying(was, pg, off, im, src, i)
    {
      ghost var now := pg;
      pg := StoreByte(m, f, off + i, ByteAt(im, src + i), s, now);
      CopyNext(was, now, pg, off, im, src, i);
    }
  }

  /** i bytes are copied. */
  ghost predicate Copying(was: seq<byte>, pg: Page, off: nat, im: Image, src: nat, i: nat) {
    |was| == PAGE && off + i <= PAGE && PageBytes(pg) == CopiedInto(was, off, im, src, i)
  }

  /** One byte of frame f, which holds the page pg in memory s. */
  method StoreByte(m: Machine, f: nat, k: nat, b: byte, ghost s: State, ghost pg: Page) returns (ghost next: Page)
    requires m.Shape() && f < TOTAL_FRAMES && k < PAGE && WellFormed(s) && m.S() == s.(mem := s.mem[f := pg])
    modifies m.frames
    ensures next == SetByte(pg, k, b) && m.S() == s.(mem := s.mem[f := next])
  {
    next := SetByte(pg, k, b);
    FillAgain(s, f, pg, next);
    assert m.frames[f] == m.S().mem[f] == pg;
    m.SetWord(f, k / 8, WordFrom(BytesOf(m.frames[f][k / 8])[k % 8 := b]));
  }

  lemma CopyNext(was: seq<byte>, pg: Page, next: Page, off: nat, im: Image, src: nat, i: nat)
    requires Copying(was, pg, off, im, src, i) && off + i < PAGE && next == SetByte(pg, off + i, ByteAt(im, src + i))
    ensures Copying(was, next, off, im, src, i + 1)
  {
    SetByteOk(pg, off + i, ByteAt(im, src + i));
  }

  lemma FrameByte(im: Image, g: Seg, vp: nat, start: nat, end: nat, j: nat)
    requires j < PAGE && start == (if vp > g.vaddr then vp else g.vaddr)
      && end == (if FileEnd(g) < vp + PAGE then FileEnd(g) else vp + PAGE)
    ensures SegByte(im, g, vp + j) == if start < end && start - vp <= j < end - vp
      then ByteAt(im, g.offset + (start - g.vaddr) + (j - (start - vp))) else 0
  {
    if start < end && start - vp <= j < end - vp {
      var x := g.offset + (start - g.vaddr) + (j - (start - vp));
      assert x == g.offset + (vp + j - g.vaddr);
    }
  }

  /** The copy puts the right byte, or leaves zero, at every offset of the page. */
  lemma FrameIs(im: Image, l: Load, start: nat, end: nat)
    requires Meets(l, start, end)
    ensures PageOf(im, l) == if start < end
      then CopiedInto(PageBytes(ZeroPage()), start - l.vp, im, l.g.offset + (start - l.g.vaddr), end - start)
                             else PageBytes(ZeroPage())
  {
    var zero := PageBytes(ZeroPage());
    forall j: nat | j < PAGE ensures zero[j] == 0 { ZeroBytes(j); }
    FrameFrom(im, l, start, end, zero);
  }

  lemma FrameFrom(im: Image, l: Load, start: nat, end: nat, zero: seq<byte>)
    requires Meets(l, start, end) && |zero| == PAGE && forall j :: 0 <= j < PAGE ==> zero[j] == 0
    ensures PageOf(im, l) == if start < end
      then CopiedInto(zero, start - l.vp, im, l.g.offset + (start - l.g.vaddr), end - start) else zero
  {
    if start < end {
      var copied := CopiedInto(zero, start - l.vp, im, l.g.offset + (start - l.g.vaddr), end - start);
      forall j: nat | j < PAGE ensures PageOf(im, l)[j] == copied[j] { FrameAt(im, l, start, end, zero, j); }
    } else {
      forall j: nat | j < PAGE ensures PageOf(im, l)[j] == zero[j] { FrameByte(im, l.g, l.vp, start, end, j); }
    }
  }

  lemma FrameAt(im: Image, l: Load, start: nat, end: nat, zero: seq<byte>, j: nat)
    requires Meets(l, start, end) && start < end && |zero| == PAGE && j < PAGE && zero[j] == 0
    ensures PageOf(im, l)[j] == CopiedInto(zero, start - l.vp, im, l.g.offset + (start - l.g.vaddr), end - start)[j]
  {
    FrameByte(im, l.g, l.vp, start, end, j);
    CopiedAt(zero, start - l.vp, im, l.g.offset + (start - l.g.vaddr), end - start, j);
  }

  /** Where the file part of the segment meets the page. */
  predicate Meets(l: Load, start: nat, end: nat) {
    && start == (if l.vp > l.g.vaddr then l.vp else l.g.vaddr)
    && end == (if FileEnd(l.g) < l.vp + PAGE then FileEnd(l.g) else l.vp + PAGE)
  }

  /** What to copy into the zeroed page: len bytes from src of the image, to off. */
  method CopyRange(im: Image, l: Load) returns (off: nat, src: nat, len: nat)
    ensures off + len <= PAGE && PageOf(im, l) == CopiedInto(PageBytes(ZeroPage()), off, im, src, len)
  {
    var fileEnd := (l.g.vaddr + l.g.filesz) % W64;
    var pageEnd := l.vp + PAGE;
    var start := if l.vp > l.g.vaddr then l.vp else l.g.vaddr;
    var end := if fileEnd < pageEnd then fileEnd else pageEnd;
    off, src, len := 0, 0, 0;
    FrameIs(im, l, start, end);
    if start < end { off, src, len := start - l.vp, l.g.offset + (start - l.g.vaddr), end - start; }
  }

  /** The part of the file that falls into the page, copied into the zeroed frame f. */
  method FillPage(m: Machine, f: nat, im: Image, l: Load) returns (ghost pg: Page)
    requires m.Shape() && f < TOTAL_FRAMES && m.S().mem[f] == ZeroPage()
    modifies m.frames
    ensures m.S() == old(m.S()).(mem := old(m.S().mem)[f := pg]) && PageBytes(pg) == PageOf(im, l)
  {
    var off, src, len := CopyRange(im, l);
    pg := ZeroPage();
    FillSame(m.S(), f);
    if len > 0 { pg := CopyToFrame(m, f, off, im, src, len); }
  }

  lemma FillSame(s: State, f: nat)
    requires WellFormed(s) && f < TOTAL_FRAMES
    ensures s == s.(mem := s.mem[f := s.mem[f]])
  {
    assert s.mem == s.mem[f := s.mem[f]];
  }

  lemma FillAgain(s: State, f: nat, z: Page, pg: Page)
    requires WellFormed(s) && f < TOTAL_FRAMES
    ensures s.mem[f := z][f := pg] == s.mem[f := pg]
  {}

  /** Which tables a taken frame's mapping leaves. */
  lemma TablesAfter(s: State, role: Roles, s': State, role': Roles, r: nat, x: Ix, w: Word, ok: bool)
    requires NewOn(role, role', r, x) && (ok ==> MapsPage(s, role, s', role', r, x, w))
    ensures ok ==> TablesOf(role', r) == TablesOf(role, r) + Way(r, x)
  {
    if ok { TablesGrow(s, role, s', role', r, x, w); }
  }

  lemma MissingCount(s: State, role: Roles, r: nat, x: Ix)
    requires Inv(s, role) && IsProc(role, r)
    ensures Missing(s.mem, r, x) == if HugeIx(x) then 0 else Lacks(TablesOf(role, r), r, x)
  {
    if HugeIx(x) { HugeMissing(s, role, r, x); } else { MissingIs(s, role, r, x); }
  }

  /** The mapping of the frame just taken and filled. */
  method MapFilled(m: Machine, r: nat, vp: nat, f: nat, ghost s: State, ghost pg: Page)
    requires m.Shape() && Inv(s, m.role) && IsProc(m.role, r) && Managed(f) && !s.used[f]
    requires m.S() == s.(used := s.used[f := true], mem := s.mem[f := pg])
    modifies m, m.bitmap, m.frames
    ensures Good(m) && IsProc(m.role, r)
    ensures Mapping(Free(s), TablesOf(old(m.role), r), ViewOf(s, old(m.role)), Free(m.S()), TablesOf(m.role, r),
      ViewsOf(m), r, IxOf(vp),
                    Missing(s.mem, r, IxOf(vp)), pg)
  {
    ghost var s1, role := m.S(), m.role;
    assert r in Procs(role);
    ghost var ok := MapTaken(m, r, vp, f, s, pg);
    SameProc(role, m.role, r);
    TablesAfter(s1, role, m.S(), m.role, r, IxOf(vp), Entry(f, 7), ok);
  }

  method MapLoaded(m: Machine, r: nat, im: Image, l: Load, f: nat, ghost s: State, ghost pg: Page, ghost v0: Views,
      ghost st: Progress)
    requires m.Shape() && Inv(s, m.role) && IsProc(m.role, r) && Managed(f) && !s.used[f]
    requires m.S() == s.(used := s.used[f := true], mem := s.mem[f := pg])
    requires PageBytes(pg) == PageOf(im, l) && Free(s) > 0
      && Tied(Free(s), TablesOf(m.role, r), ViewOf(s, m.role), r, v0, st)
    modifies m, m.bitmap, m.frames
    ensures TiedTo(m, r, v0, LoadOne(im, l, r, st))
  {
    ghost var role, n := m.role, Missing(s.mem, r, IxOf(l.vp));
    MissingCount(s, role, r, IxOf(l.vp));
    MapFilled(m, r, l.vp, f, s, pg);
    Advanced(Free(s), TablesOf(role, r), ViewOf(s, role), Free(m.S()), TablesOf(m.role, r), ViewsOf(m), r, v0, im, l,
        n, pg, st);
  }

  /** A frame holding the page, 0 when there is none. */
  method TakeFilled(m: Machine, im: Image, l: Load) returns (f: nat, ghost pg: Page)
    requires m.Shape()
    modifies m.bitmap, m.frames
    ensures f == 0 <==> old(Free(m.S())) == 0
    ensures f == 0 ==> m.S() == old(m.S())
    ensures f != 0 ==>
      && Managed(f) && !old(m.S().used)[f] && PageBytes(pg) == PageOf(im, l)
      && m.S() == old(m.S()).(used := old(m.S().used)[f := true], mem := old(m.S().mem)[f := pg])
  {
    ghost var s := m.S();
    pg := ZeroPage();
    f := m.AllocZeroed();
    if f != 0 {
      pg := FillPage(m, f, im, l);
      FillAgain(s, f, ZeroPage(), pg);
    }
  }

  lemma NoFrame(im: Image, l: Load, r: nat, st: Progress)
    ensures LoadOne(im, l, r, st).ok == (st.ok && st.free > 0)
    ensures st.free == 0 ==> LoadOne(im, l, r, st) == st.(ok := false)
  {}

  lemma TiedStop(free: nat, t: set<Role>, v: Views, r: nat, v0: Views, st: Progress)
    requires Tied(free, t, v, r, v0, st)
    ensures Tied(free, t, v, r, v0, st.(ok := false))
  {}

  /** One page of a segment: a zeroed frame, the copy, the mapping. */
  method LoadPage(m: Machine, r: nat, im: Image, l: Load, ghost v0: Views, ghost st: Progress)
      returns (ok: bool, ghost st': Progress)
    requires TiedTo(m, r, v0, st) && st.ok
    modifies m, m.bitmap, m.frames
    ensures st' == LoadOne(im, l, r, st) && ok == st'.ok && TiedTo(m, r, v0, st')
  {
    ghost var s := m.S();
    st' := LoadOne(im, l, r, st);
    NoFrame(im, l, r, st);
    var f;
    ghost var pg;
    f, pg := TakeFilled(m, im, l);
    ok := f != 0;
    if ok {
      MapLoaded(m, r, im, l, f, s, pg, v0, st);
    } else {
      TiedStop(Free(s), TablesOf(m.role, r), ViewsOf(m), r, v0, st);
    }
  }

  method PageRange(g: Seg) returns (vp: nat, end: nat)
    ensures vp == First(g) && end == Last(g)
  {
    vp := g.vaddr - g.vaddr % PAGE;
    var sum := (g.vaddr + g.memsz + PAGE - 1) % W64;
    end := sum - sum % PAGE;
  }

  /** Loading the pages from vp on will end in `goal`. */
  ghost predicate Heading(im: Image, g: Seg, vp: nat, r: nat, st: Progress, goal: Progress) {
    AfterLoads(im, PagesFrom(g, vp, Last(g)), r, st) == goal
  }

  lemma HeadingNext(im: Image, g: Seg, vp: nat, r: nat, st: Progress, next: Progress, goal: Progress)
    requires vp < Last(g) && st.ok && Heading(im, g, vp, r, st, goal) && next == LoadOne(im, Load(g, vp), r, st)
    ensures Heading(im, g, vp + PAGE, r, next, goal) && (!next.ok ==> next == goal)
  {
    var ls := PagesFrom(g, vp, Last(g));
    assert ls[0] == Load(g, vp) && ls[1..] == PagesFrom(g, vp + PAGE, Last(g));
  }

  lemma HeadingDone(im: Image, g: Seg, vp: nat, r: nat, st: Progress, goal: Progress)
    requires vp >= Last(g) && Heading(im, g, vp, r, st, goal)
    ensures st == goal
  {}

  /** The page loop of one segment. */
  method LoadSegment(m: Machine, r: nat, im: Image, g: Seg, ghost v0: Views, ghost st: Progress)
      returns (ok: bool, ghost st': Progress)
    requires TiedTo(m, r, v0, st) && st.ok
    modifies m, m.bitmap, m.frames
    ensures st' == AfterLoads(im, SegLoads(g), r, st) && ok == st'.ok && TiedTo(m, r, v0, st')
  {
    var vp, end := PageRange(g);
    ghost var goal := AfterLoads(im, SegLoads(g), r, st);
    st' := st;
    while vp < end
      invariant TiedTo(m, r, v0, st') && st'.ok && Heading(im, g, vp, r, st', goal)
    {
      ghost var was := st';
      ok, st' := LoadPage(m, r, im, Load(g, vp), v0, was);
      HeadingNext(im, g, vp, r, was, st', goal);
      if !ok { return; }
      vp := vp + PAGE;
    }
    ok := true;
    HeadingDone(im, g, vp, r, st', goal);
  }

  /** The program headers before the first that does not fit. */
  function Fitting(im: Image, n: nat): (k: nat)
    ensures k <= n && (k == n <==> AllFit(im, n))
  {
    if n == 0 then 0
    else if Fitting(im, n - 1) == n - 1 && EntryFits(im, n - 1) then n else Fitting(im, n - 1)
  }

  method CheckEntry(im: Image, i: nat) returns (ok: bool)
    ensures ok == EntryFits(im, i)
  {
    var ph := EntryAt(im, i);
    if (ph + EntrySize(im)) % W64 > |im.data| { return false; }
    if !Loadable(im, i) { return true; }
    var g := SegAt(im, ph);
    if g.filesz > 0 && (g.offset >= |im.data| || (g.offset + g.filesz) % W64 > |im.data|) { return false; }
    return true;
  }

  lemma {:induction false} FittingStops(im: Image, i: nat, n: nat)
    requires i < n && AllFit(im, i) && !EntryFits(im, i)
    ensures Fitting(im, n) == i && !AllFit(im, n)
    decreases n
  {
    if i < n - 1 { FittingStops(im, i, n - 1); }
  }

  lemma NextEntry(im: Image, i: nat, r: nat, st: Progress, cur: Progress)
    requires cur == AfterLoads(im, Loads(im, i), r, st)
    ensures AfterLoads(im, Loads(im, i + 1), r, st) == if Loadable(im, i)
      then AfterLoads(im, SegLoads(SegAt(im, EntryAt(im, i))), r, cur) else cur
  {
    var ls, ms := Loads(im, i), if Loadable(im, i) then SegLoads(SegAt(im, EntryAt(im, i))) else [];
    assert Loads(im, i + 1) == ls + ms;
    LoadsAppend(im, ls, ms, r, st);
  }

  /** Once a page got no frame, nothing more is loaded. */
  lemma {:induction false} Stuck(im: Image, i: nat, n: nat, r: nat, st: Progress, cur: Progress)
    requires i <= n && cur == AfterLoads(im, Loads(im, i), r, st) && !cur.ok
    ensures AfterLoads(im, Loads(im, n), r, st) == cur
    decreases n
  {
    if i < n {
      Stuck(im, i, n - 1, r, st, cur);
      NextEntry(im, n - 1, r, st, cur);
    }
  }

  lemma {:induction false} FittingAtLeast(im: Image, i: nat, n: nat)
    requires i <= n && AllFit(im, i)
    ensures i <= Fitting(im, n)
    decreases n
  {
    if i < n { FittingAtLeast(im, i, n - 1); }
  }

  /** The program headers i to n, up to the first that does not fit or whose pages do not all get a frame. */
  ghost function AfterHeaders(im: Image, i: nat, n: nat, r: nat, st: Progress): Progress
    decreases n - i
  {
    if i >= n || !st.ok then st
    else if !EntryFits(im, i) then st.(ok := false)
    else AfterHeaders(im, i + 1, n, r, AfterHeader(im, i, r, st))
  }

  ghost function AfterHeader(im: Image, i: nat, r: nat, st: Progress): Progress {
    if Loadable(im, i) then AfterLoads(im, SegLoads(SegAt(im, EntryAt(im, i))), r, st) else st
  }

  /** The headers load the pages of those that fit, and pass if all fit and every page got a frame. */
  lemma {:induction false} HeadersLoad(im: Image, i: nat, n: nat, r: nat, st: Progress, cur: Progress)
    requires i <= n && AllFit(im, i) && cur == AfterLoads(im, Loads(im, i), r, st)
    ensures var o := AfterHeaders(im, i, n, r, cur);
            && (o.ok <==> AllFit(im, n) && AfterLoads(im, Loads(im, n), r, st).ok)
            && o == AfterLoads(im, Loads(im, Fitting(im, n)), r, st).(ok := o.ok)
    decreases n - i
  {
    if !cur.ok {
      FittingAtLeast(im, i, n);
      Stuck(im, i, n, r, st, cur);
      Stuck(im, i, Fitting(im, n), r, st, cur);
    } else if i < n && !EntryFits(im, i) {
      FittingStops(im, i, n);
    } else if i < n {
      NextEntry(im, i, r, st, cur);
      HeadersLoad(im, i + 1, n, r, st, AfterHeader(im, i, r, cur));
    }
  }

  /** The headers from i on will end in `goal`. */
  ghost predicate Aiming(im: Image, i: nat, n: nat, r: nat, st: Progress, goal: Progress) {
    AfterHeaders(im, i, n, r, st) == goal
  }

  lemma AimingNext(im: Image, i: nat, n: nat, r: nat, st: Progress, next: Progress, goal: Progress)
    requires i < n && st.ok && Aiming(im, i, n, r, st, goal) && next == EntryDone(im, i, r, st)
    ensures Aiming(im, i + 1, n, r, next, goal) && (!next.ok ==> next == goal)
  {}

  lemma AimingDone(im: Image, i: nat, n: nat, r: nat, st: Progress, goal: Progress)
    requires i >= n && Aiming(im, i, n, r, st, goal)
    ensures st == goal
  {}

  /** What one program header leads to. */
  ghost function EntryDone(im: Image, i: nat, r: nat, st: Progress): Progress {
    if EntryFits(im, i) then AfterHeader(im, i, r, st) else st.(ok := false)
  }

  lemma TiedToStop(m: Machine, r: nat, v0: Views, st: Progress)
    requires TiedTo(m, r, v0, st)
    ensures TiedTo(m, r, v0, st.(ok := false))
  {
    TiedStop(Free(m.S()), TablesOf(m.role, r), ViewsOf(m), r, v0, st);
  }

  /** A program header that fits. */
  method LoadFitting(m: Machine, r: nat, im: Image, i: nat, ghost v0: Views, ghost st: Progress)
      returns (ok: bool, ghost st': Progress)
    requires TiedTo(m, r, v0, st) && st.ok && EntryFits(im, i)
    modifies m, m.bitmap, m.frames
    ensures st' == EntryDone(im, i, r, st) && ok == st'.ok && TiedTo(m, r, v0, st')
  {
    ok, st' := true, st;
    if Loadable(im, i) { ok, st' := LoadSegment(m, r, im, SegAt(im, EntryAt(im, i)), v0, st); }
  }

  /** One that does not. */
  lemma LoadNothing(m: Machine, r: nat, im: Image, i: nat, v0: Views, st: Progress)
    requires TiedTo(m, r, v0, st) && !EntryFits(im, i)
    ensures EntryDone(im, i, r, st) == st.(ok := false) && TiedTo(m, r, v0, EntryDone(im, i, r, st))
  {
    TiedToStop(m, r, v0, st);
  }

  /** One program header. */
  method LoadEntry(m: Machine, r: nat, im: Image, i: nat, ghost v0: Views, ghost st: Progress)
      returns (ok: bool, ghost st': Progress)
    requires TiedTo(m, r, v0, st) && st.ok
    modifies m, m.bitmap, m.frames
    ensures st' == EntryDone(im, i, r, st) && ok == st'.ok && TiedTo(m, r, v0, st')
  {
    ok := CheckEntry(im, i);
    if ok {
      ok, st' := LoadFitting(m, r, im, i, v0, st);
      return;
    }
    LoadNothing(m, r, im, i, v0, st);
    st' := EntryDone(im, i, r, st);
  }

  /** The loop over the first n program headers. */
  method LoadEntries(m: Machine, r: nat, im: Image, n: nat, ghost v0: Views, ghost st: Progress)
      returns (ok: bool, ghost st': Progress)
    requires TiedTo(m, r, v0, st) && st.ok
    modifies m, m.bitmap, m.frames
    ensures st' == AfterHeaders(im, 0, n, r, st) && ok == st'.ok && TiedTo(m, r, v0, st')
  {
    ghost var goal := AfterHeaders(im, 0, n, r, st);
    var i := 0;
    st' := st;
    while i < n
      invariant 0 <= i <= n && TiedTo(m, r, v0, st') && st'.ok && Aiming(im, i, n, r, st', goal)
    {
      ghost var was := st';
      ok, st' := LoadEntry(m, r, im, i, v0, was);
      AimingNext(im, i, n, r, was, st', goal);
      if !ok { return; }
      i := i + 1;
    }
    ok := true;
    AimingDone(im, i, n, r, st', goal);
  }

  /** `elf_load` into the address space r: the entry point, or 0 for a refusal. What the program then sees through its
      page tables is what counting frames says, and no other address space changes. */
  method ElfLoad(m: Machine, r: nat, im: Image) returns (ok: bool, entry: nat, ghost st': Progress)
    requires Good(m) && IsProc(m.role, r)
    modifies m, m.bitmap, m.frames
    ensures r in old(ViewsOf(m)) && TiedTo(m, r, old(ViewsOf(m)), st') && ok == st'.ok
      && entry == if ok then Field(im, 24, 8) else 0
    ensures st' == Loaded(im, r, StartOf(old(m.S()), old(m.role), old(ViewsOf(m)), r))
  {
    entry := 0;
    ghost var v := ViewsOf(m);
    assert r in Procs(m.role);
    st' := StartOf(m.S(), m.role, v, r);
    assert v == v[r := v[r]];
    if !HeaderOk(im) {
      st' := st'.(ok := false);
      return false, 0, st';
    }
    ok, st' := LoadEntries(m, r, im, Entries(im), v, st');
    if ok { entry := Field(im, 24, 8); }
  }

  /** The whole load. */
  ghost function Loaded(im: Image, r: nat, st: Progress): Progress {
    if HeaderOk(im) then AfterHeaders(im, 0, Entries(im), r, st) else st.(ok := false)
  }

  /** The loader reports success, and every page is where it belongs, if and only if the headers pass their checks, no
      page lies in a 2MB entry, and there are frames for all pages and all missing tables. */
  lemma LoadedIff(im: Image, r: nat, st: Progress)
    requires st.ok && st.lost == 0
    ensures var o, ls := Loaded(im, r, st), Loads(im, Entries(im));
            (o.ok && o.lost == 0 <==>
              HeaderOk(im) && AllFit(im, Entries(im)) && !InHuge(ls) && Need(ls, r, st.tables) <= st.free)
            && (o.ok && o.lost == 0 ==> o.sees == Filled(im, ls, st.sees))
  {
    if HeaderOk(im) {
      HeadersLoad(im, 0, Entries(im), r, st, st);
      LoadedWhole(im, Loads(im, Entries(im)), r, st);
    }
  }

  /** `elf_load` of a program that is in order and for which there is room: afterwards every address of every segment
      that shares no page with another one reads, through the page tables, as its file byte or as zero behind the file
      part. */
  method LoadProgram(m: Machine, r: nat, im: Image) returns (ok: bool, entry: nat)
    requires Good(m) && IsProc(m.role, r)
    modifies m, m.bitmap, m.frames
    ensures r in ViewsOf(m)
    ensures InOrder(im) && Room(im, r, TablesOf(old(m.role), r), old(Free(m.S()))) ==>
      ok && entry == Field(im, 24, 8) && ReadsAs(im, BytesIn(ViewsOf(m)[r]))
  {
    ghost var st := StartOf(m.S(), m.role, ViewsOf(m), r);
    ghost var st';
    ok, entry, st' := ElfLoad(m, r, im);
    LoadedReads(im, r, st);
  }

  /** The headers pass their checks, and the segments end below 2^48 and are no smaller in memory than in the file. */
  predicate InOrder(im: Image) {
    && HeaderOk(im) && AllFit(im, Entries(im)) && Addressable(im, Entries(im))
    && forall h :: 0 <= h < Entries(im) && Loadable(im, h) ==> HeaderSeg(im, h).filesz <= HeaderSeg(im, h).memsz
  }

  /** No page lies in a 2MB entry, and there are frames for all pages and missing tables. */
  predicate Room(im: Image, r: nat, t: set<Role>, free: nat) {
    !InHuge(Loads(im, Entries(im))) && Need(Loads(im, Entries(im)), r, t) <= free
  }

  ghost predicate ReadsAs(im: Image, sees: ByteSpace) {
    forall h: nat, a: nat {:trigger SoleIn(im, Entries(im), h, a)} :: SoleIn(im, Entries(im), h, a) ==>
        ReadByte(sees, a) == HeaderByte(im, h, a)
  }

  lemma LoadedReads(im: Image, r: nat, st: Progress)
    requires st.ok && st.lost == 0
    ensures InOrder(im) && Room(im, r, st.tables, st.free) ==>
      Loaded(im, r, st).ok && ReadsAs(im, Loaded(im, r, st).sees)
  {
    if InOrder(im) && Room(im, r, st.tables, st.free) {
      LoadedIff(im, r, st);
      var n := Entries(im);
      forall h: nat, a: nat | SoleIn(im, n, h, a) ensures ReadByte(Loaded(im, r, st).sees, a) == HeaderByte(im, h, a) {
        ProgramByte(im, n, st.sees, h, a);
      }
    }
  }
}
