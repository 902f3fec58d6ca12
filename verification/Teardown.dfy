/** Releasing an address space (vmm_free_user_memory). */
module Teardown {
  import opened Paging
  import opened Cow
  import opened Spaces
  import opened Steps

  /** The ownership map once `r` no longer counts. */
  ghost function Retire(role: Roles, r: nat): Roles {
    map f | f in role && role[f].r != r :: role[f]
  }

  lemma RetireTree(s: State, role: Roles, r: nat)
    requires Tree(s, role)
    ensures Tree(s, Retire(role, r))
    ensures Procs(Retire(role, r)) == Procs(role) - {r}
  {
    var role' := Retire(role, r);
    forall g: nat, i: Index ensures EntryOk(s, role', g, i) { assert EntryOk(s, role, g, i); }
    forall g: nat ensures RoleOk(s, role', g) { assert RoleOk(s, role, g); }
  }

  lemma RetireTrans(s: State, role: Roles, r: nat)
    requires Tree(s, role)
    ensures TransOf(s.mem, Retire(role, r)) == Without(TransOf(s.mem, role), r)
  {
    RetireTree(s, role, r);
    forall k: Key ensures IsProc(Retire(role, r), k.r) <==> IsProc(role, k.r) && k.r != r {
      assert k.r in Procs(Retire(role, r)) <==> k.r in Procs(role) && k.r != r;
    }
  }

  lemma RetireView(s: State, role: Roles, r: nat)
    requires Tree(s, role)
    ensures ViewOf(s, Retire(role, r)) == ViewOf(s, role) - {r}
  {
    RetireTree(s, role, r);
    RetireTrans(s, role, r);
    ViewDrop(Procs(role), TransOf(s.mem, role), s.mem, r);
  }

  /** Everything known about the pages of `r` while they are being released: `t0` are the old translations. */
  ghost predicate Doomed(role: Roles, m: Trans, t0: Trans, r: nat, x: Ix) {
    Key(r, x) in t0 ==>
      && Managed(t0[Key(r, x)].pfn) && t0[Key(r, x)].pfn !in role
      && (forall k :: k in m && m[k].pfn == t0[Key(r, x)].pfn ==> k.x == x)
  }

  ghost predicate Apart(t0: Trans, r: nat, x: Ix, y: Ix) {
    Key(r, x) in t0 && Key(r, y) in t0 && t0[Key(r, x)].pfn == t0[Key(r, y)].pfn ==> x == y
  }

  lemma RetireInv(s: State, role: Roles, r: nat)
    requires Inv(s, role) && r in Procs(role)
    ensures Inv(s, Retire(role, r))
    ensures
      var m, t0 := TransOf(s.mem, Retire(role, r)), TransOf(s.mem, role);
      && (forall x :: Doomed(role, m, t0, r, x))
      && (forall x, y :: Apart(t0, r, x, y))
      && (forall x :: Key(r, x) in t0 ==> Slack(Procs(Retire(role, r)), m, s.cow, x, t0[Key(r, x)].pfn))
  {
    RetireTree(s, role, r);
    RetireTrans(s, role, r);
    var m, t0 := TransOf(s.mem, Retire(role, r)), TransOf(s.mem, role);
    Drop(Procs(role), t0, s.cow, r);
    forall x ensures Doomed(role, m, t0, r, x) {
      if Key(r, x) in t0 {
        MappedOk(s, role, Key(r, x));
        assert LeafOk(Procs(role), t0, Key(r, x));
        forall k | k in m && m[k].pfn == t0[Key(r, x)].pfn ensures k.x == x {
          assert PairOk(t0, k, Key(r, x));
        }
      }
    }
    forall x, y ensures Apart(t0, r, x, y) {
      assert PairOk(t0, Key(r, x), Key(r, y));
    }
    forall k: Key ensures HugeOk(s.mem, Retire(role, r), k) {
      assert HugeOk(s.mem, role, k);
      assert k.r in Procs(Retire(role, r)) <==> k.r in Procs(role) && k.r != r;
    }
  }

  /** A present entry of any page table is a live translation. */
  lemma EntryLive(s: State, role: Roles, f: nat, i: Index)
    requires Tree(s, role) && f in role && role[f].Pt? && At(s.mem, f, i).p
    ensures
      var k := Key(role[f].r, Ix(role[f].a, role[f].b, role[f].c, i));
      k in TransOf(s.mem, role) && TransOf(s.mem, role)[k] == At(s.mem, f, i)
  {
    assert RoleOk(s, role, f);
    var q := role[f];
    var x := Ix(q.a, q.b, q.c, i);
    assert PtOf(s.mem, q.r, x) == PtOf(s.mem, q.r, Ix(q.a, q.b, q.c, 0));
    TransAt(s, role, q.r, x);
  }

  /** A frame that is neither a table nor mapped may be marked free. */
  lemma FreeTree(s: State, role: Roles, g: nat)
    requires Tree(s, role) && Managed(g) && g !in role && Unshared(TransOf(s.mem, role), g)
    ensures Tree(s.(used := s.used[g := false]), role)
  {
    var s' := s.(used := s.used[g := false]);
    forall f: nat, i: Index ensures EntryOk(s', role, f, i) {
      assert EntryOk(s, role, f, i);
      if f in role && role[f].Pt? && At(s.mem, f, i).p { EntryLive(s, role, f, i); }
    }
    forall f: nat ensures RoleOk(s', role, f) { assert RoleOk(s, role, f); }
  }

  lemma FreeInv(s: State, role: Roles, g: nat)
    requires Inv(s, role) && Managed(g) && g !in role && Unshared(TransOf(s.mem, role), g) && s.cow[g] == 0
    ensures Inv(s.(used := s.used[g := false]), role)
  {
    FreeTree(s, role, g);
    TidyFree(s.used, s.cow, role, g);
  }

  /** A former table frame is not mapped by anyone. */
  lemma TableUnshared(s: State, role: Roles, r: nat, g: nat)
    requires Tree(s, role) && g in role && role[g].r == r
    ensures Managed(g) && g !in Retire(role, r)
    ensures Unshared(TransOf(s.mem, Retire(role, r)), g)
  {
    assert RoleOk(s, role, g);
    RetireTrans(s, role, r);
    forall k | k in TransOf(s.mem, role) ensures TransOf(s.mem, role)[k].pfn != g {
      MappedOk(s, role, k);
    }
  }

  /** The release of one page: the counter goes down if positive, otherwise the frame is freed. */
  function Release(s: State, f: nat): State
    requires WellFormed(s) && f < TOTAL_FRAMES
  {
    if s.cow[f] > 0 then s.(cow := s.cow[f := s.cow[f] - 1]) else s.(used := s.used[f := false])
  }

  lemma CountInv(s: State, role: Roles, x: Ix, f: nat)
    requires Inv(s, role) && f < TOTAL_FRAMES && s.cow[f] > 0
    requires Slack(Procs(role), TransOf(s.mem, role), s.cow, x, f)
    requires forall k :: k in TransOf(s.mem, role) && TransOf(s.mem, role)[k].pfn == f ==> k.x == x
    ensures Inv(s.(cow := s.cow[f := s.cow[f] - 1]), role)
  {
    ReleaseCounted(Procs(role), TransOf(s.mem, role), s.cow, x, f);
    CowTree(s, role, s.cow[f := s.cow[f] - 1]);
  }

  lemma ReleaseInv(s: State, role: Roles, x: Ix, f: nat)
    requires Inv(s, role) && Managed(f) && f !in role
    requires Slack(Procs(role), TransOf(s.mem, role), s.cow, x, f)
    requires forall k :: k in TransOf(s.mem, role) && TransOf(s.mem, role)[k].pfn == f ==> k.x == x
    ensures Inv(Release(s, f), role)
  {
    if s.cow[f] > 0 {
      CountInv(s, role, x, f);
      ReleaseCount(s, f);
    } else {
      ReleaseLast(Procs(role), TransOf(s.mem, role), s.cow, x, f);
      FreeInv(s, role, f);
      ReleaseFree(s, f);
    }
  }

  lemma ReleaseCount(s: State, f: nat)
    requires WellFormed(s) && f < TOTAL_FRAMES && s.cow[f] > 0
    ensures Release(s, f) == s.(cow := s.cow[f := s.cow[f] - 1])
  {}

  lemma ReleaseFree(s: State, f: nat)
    requires WellFormed(s) && f < TOTAL_FRAMES && s.cow[f] == 0
    ensures Release(s, f) == s.(used := s.used[f := false])
  {}

  // ---------------------------------------------------------------------------
  // The release loops
  // ---------------------------------------------------------------------------

  predicate LowTable(q: Role, r: nat) {
    q == Pml4(r) || q == Pdpt(r, 0) || q == Pd(r, 0, 0) || (q.Pt? && q.r == r && q.a == 0 && q.b == 0)
  }

  /** Frame `g` is what a teardown of `r` frees: a table for the first gigabyte, or a page there that no counter
      covers. */
  ghost predicate GivesBack(s: State, role: Roles, r: nat, g: nat) {
    || (g in role && LowTable(role[g], r))
    || (g < |s.cow| && s.cow[g] == 0 && HasPage(s, role, r, g))
  }

  /** Frame `g` is a page of the first gigabyte of `r`. */
  ghost predicate HasPage(s: State, role: Roles, r: nat, g: nat) {
    exists x :: Low(x) && Key(r, x) in TransOf(s.mem, role) && TransOf(s.mem, role)[Key(r, x)].pfn == g
  }

  /** A page not yet released still has its counter, which covers it and every sharer that stays. */
  ghost predicate Pending(s0: State, role0: Roles, s: State, r: nat, y: Ix) {
    var t0 := TransOf(s0.mem, role0);
    WellFormed(s0) && WellFormed(s) && Key(r, y) in t0 && t0[Key(r, y)].pfn < TOTAL_FRAMES ==>
      && Slack(Procs(Retire(role0, r)), TransOf(s0.mem, Retire(role0, r)), s.cow, y, t0[Key(r, y)].pfn)
      && s.cow[t0[Key(r, y)].pfn] == s0.cow[t0[Key(r, y)].pfn]
  }

  /** A page already released: its counter is one less, or it was zero and the frame is free. */
  ghost predicate Released(s0: State, role0: Roles, s: State, r: nat, y: Ix) {
    var t0 := TransOf(s0.mem, role0);
    (WellFormed(s0) && WellFormed(s) && Key(r, y) in t0 && t0[Key(r, y)].pfn < TOTAL_FRAMES) ==>
      var f := t0[Key(r, y)].pfn;
      if s0.cow[f] == 0 then !s.used[f] && s.cow[f] == 0 else s.cow[f] + 1 == s0.cow[f]
  }

  predicate TableGone(role0: Roles, s: State, r: nat, i: nat, t: nat) {
    (WellFormed(s) && t < TOTAL_FRAMES && t in role0 && role0[t].Pt? && role0[t].r == r) ==>
      (role0[t].a == 0 && role0[t].b == 0 && role0[t].c < i ==> !s.used[t])
  }

  ghost predicate OnlyOwned(s0: State, role0: Roles, s: State, r: nat, g: nat) {
    WellFormed(s0) && WellFormed(s) && g < TOTAL_FRAMES ==>
      && (s.used[g] ==> s0.used[g])
      && (!HasPage(s0, role0, r, g) ==> s.cow[g] == s0.cow[g])
      && (s0.used[g] && !s.used[g] ==> GivesBack(s0, role0, r, g))
  }

  /** Counters only go down. */
  ghost predicate Fewer(cow: seq<nat>, cow0: seq<nat>) {
    |cow| == |cow0| && forall f {:trigger cow[f]} :: 0 <= f < |cow| ==> cow[f] <= cow0[f]
  }

  /** State of the teardown of `r`, begun in (s0, role0), before directory slot `i` and table slot `j`. */
  ghost predicate Releasing(s0: State, role0: Roles, s: State, r: nat, i: nat, j: nat) {
    && Inv(s0, role0) && r in Procs(role0)
    && Inv(s, Retire(role0, r)) && s.mem == s0.mem && Tidy(s.used, s.cow, role0) && Fewer(s.cow, s0.cow)
    && Marked(s0, role0, s, r, i) && Half(s0, role0, s, r, i, j)
  }

  /** Only frames of `r` were freed, and its page tables below slot `i` were. */
  ghost predicate Marked(s0: State, role0: Roles, s: State, r: nat, i: nat) {
    && (forall g: nat :: OnlyOwned(s0, role0, s, r, g))
    && (forall t: nat :: TableGone(role0, s, r, i, t))
  }

  /** The pages before slot (i, j) are released, the others not yet. */
  ghost predicate Half(s0: State, role0: Roles, s: State, r: nat, i: nat, j: nat) {
    && (forall y :: Low(y) && !Before(y, i, j) ==> Pending(s0, role0, s, r, y))
    && (forall y :: Before(y, i, j) ==> Released(s0, role0, s, r, y))
  }

  lemma ReleasingStart(s: State, role: Roles, r: nat)
    requires Inv(s, role) && r in Procs(role)
    ensures Releasing(s, role, s, r, 0, 0)
  {
    RetireInv(s, role, r);
  }

  lemma ReleasingSkip(s0: State, role0: Roles, s: State, r: nat, i: Index, j: Index)
    requires Releasing(s0, role0, s, r, i, j) && Key(r, Ix(0, 0, i, j)) !in TransOf(s0.mem, role0)
    ensures Releasing(s0, role0, s, r, i, j + 1)
  {
    forall y | Before(y, i, j + 1) ensures Released(s0, role0, s, r, y) {
      if !Before(y, i, j) { assert y == Ix(0, 0, i, j); }
    }
  }

  lemma ReleasePages(s0: State, role0: Roles, s: State, r: nat, i: Index, j: Index, f: nat)
    requires WellFormed(s0) && WellFormed(s) && Half(s0, role0, s, r, i, j)
      && Key(r, Ix(0, 0, i, j)) in TransOf(s0.mem, role0)
    requires TransOf(s0.mem, role0)[Key(r, Ix(0, 0, i, j))].pfn == f < TOTAL_FRAMES
    requires forall y :: Apart(TransOf(s0.mem, role0), r, Ix(0, 0, i, j), y)
    ensures Half(s0, role0, Release(s, f), r, i, j + 1)
  {
    var x, t0, s' := Ix(0, 0, i, j), TransOf(s0.mem, role0), Release(s, f);
    forall y | Low(y) && !Before(y, i, j + 1) ensures Pending(s0, role0, s', r, y) {
      assert Pending(s0, role0, s, r, y) && Apart(t0, r, x, y);
    }
    forall y | Before(y, i, j + 1) ensures Released(s0, role0, s', r, y) {
      if Before(y, i, j) {
        assert Released(s0, role0, s, r, y) && Apart(t0, r, x, y);
        ReleasedStill(s0, role0, s, r, x, y, f);
      } else {
        assert y == x;
        assert Pending(s0, role0, s, r, x);
        ReleasedNow(s0, role0, s, r, x, f);
      }
    }
  }

  lemma ReleasedNow(s0: State, role0: Roles, s: State, r: nat, x: Ix, f: nat)
    requires WellFormed(s0) && WellFormed(s) && f < TOTAL_FRAMES && s.cow[f] == s0.cow[f]
    requires Key(r, x) in TransOf(s0.mem, role0) && TransOf(s0.mem, role0)[Key(r, x)].pfn == f
    ensures Released(s0, role0, Release(s, f), r, x)
  {}

  lemma ReleasedStill(s0: State, role0: Roles, s: State, r: nat, x: Ix, y: Ix, f: nat)
    requires WellFormed(s0) && WellFormed(s) && f < TOTAL_FRAMES && Released(s0, role0, s, r, y) && y != x
    requires Key(r, x) in TransOf(s0.mem, role0) && TransOf(s0.mem, role0)[Key(r, x)].pfn == f
    requires Apart(TransOf(s0.mem, role0), r, x, y)
    ensures Released(s0, role0, Release(s, f), r, y)
  {}

  lemma ReleasingPage(s0: State, role0: Roles, s: State, r: nat, i: Index, j: Index, f: nat)
    requires Releasing(s0, role0, s, r, i, j) && Key(r, Ix(0, 0, i, j)) in TransOf(s0.mem, role0)
    requires TransOf(s0.mem, role0)[Key(r, Ix(0, 0, i, j))].pfn == f
    ensures f < TOTAL_FRAMES && Releasing(s0, role0, Release(s, f), r, i, j + 1)
  {
    var x, t0 := Ix(0, 0, i, j), TransOf(s0.mem, role0);
    RetireInv(s0, role0, r);
    assert Doomed(role0, TransOf(s0.mem, Retire(role0, r)), t0, r, x);
    assert Pending(s0, role0, s, r, x);
    ReleaseInv(s, Retire(role0, r), x, f);
    ReleasePages(s0, role0, s, r, i, j, f);
    ReleaseTidy(s, role0, s0.cow, f);
    ReleaseMarks(s0, role0, s, r, i, x, f);
  }

  lemma ReleaseTidy(s: State, role0: Roles, cow0: seq<nat>, f: nat)
    requires WellFormed(s) && Tidy(s.used, s.cow, role0) && Fewer(s.cow, cow0) && f < TOTAL_FRAMES
    ensures Tidy(Release(s, f).used, Release(s, f).cow, role0) && Fewer(Release(s, f).cow, cow0)
  {
    if s.cow[f] > 0 { TidySet(s.used, s.cow, role0, f, s.cow[f] - 1); } else { TidyFree(s.used, s.cow, role0, f); }
  }

  lemma ReleaseMarks(s0: State, role0: Roles, s: State, r: nat, i: Index, x: Ix, f: nat)
    requires WellFormed(s0) && WellFormed(s) && Marked(s0, role0, s, r, i) && Low(x)
      && Key(r, x) in TransOf(s0.mem, role0)
    requires TransOf(s0.mem, role0)[Key(r, x)].pfn == f < TOTAL_FRAMES && s.cow[f] == s0.cow[f]
    ensures Marked(s0, role0, Release(s, f), r, i)
  {
    var s' := Release(s, f);
    assert HasPage(s0, role0, r, f);
    forall g: nat ensures OnlyOwned(s0, role0, s', r, g) { assert OnlyOwned(s0, role0, s, r, g); }
    forall t: nat ensures TableGone(role0, s', r, i, t) { assert TableGone(role0, s, r, i, t); }
  }

  /** Freeing a table frame of the dying address space. */
  lemma FreeTable(s0: State, role0: Roles, s: State, r: nat, g: nat)
    requires Inv(s0, role0) && Inv(s, Retire(role0, r)) && s.mem == s0.mem && Tidy(s.used, s.cow, role0)
    requires g in role0 && role0[g].r == r
    ensures Managed(g) && Inv(s.(used := s.used[g := false]), Retire(role0, r))
    ensures Tidy(s.used[g := false], s.cow, role0)
  {
    TableUnshared(s0, role0, r, g);
    assert s.cow[g] == 0;
    TidyFree(s.used, s.cow, role0, g);
    FreeInv(s, Retire(role0, r), g);
  }

  lemma TableAt(s: State, role: Roles, r: nat, i: Index, u: nat)
    requires Tree(s, role) && u in role && role[u] == Pt(r, 0, 0, i)
    ensures PtOf(s.mem, r, Ix(0, 0, i, 0)) == Some(u)
  {
    assert RoleOk(s, role, u);
  }

  /** Slot `i` is done: its page table, if any, is free. */
  lemma MarkedTable(s0: State, role0: Roles, s: State, r: nat, i: Index, s': State)
    requires Tree(s0, role0) && WellFormed(s) && Marked(s0, role0, s, r, i)
    requires s' == match PtOf(s0.mem, r, Ix(0, 0, i, 0)) { case None => s case Some(t) => if t < TOTAL_FRAMES
      then s.(used := s.used[t := false]) else s }
    requires PtOf(s0.mem, r, Ix(0, 0, i, 0)).Some? ==>
      var t := PtOf(s0.mem, r, Ix(0, 0, i, 0)).value; t < TOTAL_FRAMES && t in role0 && role0[t] == Pt(r, 0, 0, i)
    ensures Marked(s0, role0, s', r, i + 1)
  {
    forall g: nat ensures OnlyOwned(s0, role0, s', r, g) { assert OnlyOwned(s0, role0, s, r, g); }
    var k := i + 1;
    forall u: nat ensures TableGone(role0, s', r, k, u) {
      assert TableGone(role0, s, r, i, u);
      if u in role0 && role0[u] == Pt(r, 0, 0, i) { TableAt(s0, role0, r, i, u); }
    }
  }

  lemma HalfRow(s0: State, role0: Roles, s: State, s': State, r: nat, i: Index)
    requires WellFormed(s) && WellFormed(s') && Half(s0, role0, s, r, i, 512) && s'.cow == s.cow
    requires forall g :: 0 <= g < TOTAL_FRAMES && s'.used[g] ==> s.used[g]
    ensures Half(s0, role0, s', r, i + 1, 0)
  {
    forall y | Low(y) && !Before(y, i + 1, 0) ensures Pending(s0, role0, s', r, y) {
      assert Pending(s0, role0, s, r, y);
    }
    forall y | Before(y, i + 1, 0) ensures Released(s0, role0, s', r, y) {
      assert Before(y, i, 512);
      assert Released(s0, role0, s, r, y);
    }
  }

  lemma ReleasingTable(s0: State, role0: Roles, s: State, r: nat, i: Index, t: nat)
    requires Releasing(s0, role0, s, r, i, 512) && PtOf(s0.mem, r, Ix(0, 0, i, 0)) == Some(t)
    ensures t < TOTAL_FRAMES && Releasing(s0, role0, s.(used := s.used[t := false]), r, i + 1, 0)
  {
    PtRole(s0, role0, r, Ix(0, 0, i, 0));
    FreeTable(s0, role0, s, r, t);
    var s' := s.(used := s.used[t := false]);
    MarkedTable(s0, role0, s, r, i, s');
    HalfRow(s0, role0, s, s', r, i);
  }

  /** Without a page table there are no pages to release. */
  lemma HalfEmpty(s0: State, role0: Roles, s: State, r: nat, i: Index)
    requires Half(s0, role0, s, r, i, 0) && forall d: Index :: Key(r, Ix(0, 0, i, d)) !in TransOf(s0.mem, role0)
    ensures Half(s0, role0, s, r, i, 512)
  {
    forall y | Before(y, i, 512) ensures Released(s0, role0, s, r, y) {
      if y.c == i { assert y == Ix(0, 0, i, y.d); } else { assert Before(y, i, 0); }
    }
  }

  lemma NoTableKeys(s: State, role: Roles, r: nat, i: Index)
    requires Tree(s, role) && IsProc(role, r) && PtOf(s.mem, r, Ix(0, 0, i, 0)).None?
    ensures forall d: Index :: Key(r, Ix(0, 0, i, d)) !in TransOf(s.mem, role)
  {
    forall d: Index ensures Key(r, Ix(0, 0, i, d)) !in TransOf(s.mem, role) {
      assert PtOf(s.mem, r, Ix(0, 0, i, d)) == PtOf(s.mem, r, Ix(0, 0, i, 0));
      TransAt(s, role, r, Ix(0, 0, i, d));
    }
  }

  lemma ReleasingNoTable(s0: State, role0: Roles, s: State, r: nat, i: Index)
    requires Releasing(s0, role0, s, r, i, 0) && PtOf(s0.mem, r, Ix(0, 0, i, 0)).None?
    ensures Releasing(s0, role0, s, r, i + 1, 0)
  {
    NoTableKeys(s0, role0, r, i);
    HalfEmpty(s0, role0, s, r, i);
    HalfRow(s0, role0, s, s, r, i);
    MarkedTable(s0, role0, s, r, i, s);
  }

  /** Without a low page directory there is nothing to release in the loops. */
  lemma ReleasingNone(s0: State, role0: Roles, r: nat)
    requires Inv(s0, role0) && r in Procs(role0) && PdOf(s0.mem, r, Ix(0, 0, 0, 0)).None?
    ensures Releasing(s0, role0, s0, r, 512, 0)
  {
    ReleasingStart(s0, role0, r);
    forall y | Before(y, 512, 0) ensures Released(s0, role0, s0, r, y) {
      assert PdOf(s0.mem, r, y) == PdOf(s0.mem, r, Ix(0, 0, 0, 0));
      TransAt(s0, role0, r, y);
    }
    forall u: nat ensures TableGone(role0, s0, r, 512, u) {
      assert RoleOk(s0, role0, u);
    }
  }

  /** All pages and page tables are released; of the other tables, those in `gone` are free. */
  ghost predicate Tearing(s0: State, role0: Roles, s: State, r: nat, gone: set<nat>) {
    && Releasing(s0, role0, s, r, 512, 0)
    && forall g :: g in gone ==> g < TOTAL_FRAMES && !s.used[g]
  }

  lemma MarkedFree(s0: State, role0: Roles, s: State, r: nat, g: nat)
    requires WellFormed(s) && Marked(s0, role0, s, r, 512) && g in role0 && LowTable(role0[g], r) && g < TOTAL_FRAMES
    ensures Marked(s0, role0, s.(used := s.used[g := false]), r, 512)
  {
    var s' := s.(used := s.used[g := false]);
    forall h: nat ensures OnlyOwned(s0, role0, s', r, h) { assert OnlyOwned(s0, role0, s, r, h); }
    forall u: nat ensures TableGone(role0, s', r, 512, u) { assert TableGone(role0, s, r, 512, u); }
  }

  lemma HalfFree(s0: State, role0: Roles, s: State, r: nat, g: nat)
    requires WellFormed(s) && Half(s0, role0, s, r, 512, 0) && g < TOTAL_FRAMES
    ensures Half(s0, role0, s.(used := s.used[g := false]), r, 512, 0)
  {
    var s' := s.(used := s.used[g := false]);
    forall y | Before(y, 512, 0) ensures Released(s0, role0, s', r, y) { assert Released(s0, role0, s, r, y); }
  }

  lemma TearTable(s0: State, role0: Roles, s: State, r: nat, gone: set<nat>, g: nat)
    requires Tearing(s0, role0, s, r, gone) && g in role0 && LowTable(role0[g], r)
    ensures g < TOTAL_FRAMES && Tearing(s0, role0, s.(used := s.used[g := false]), r, gone + {g})
  {
    FreeTable(s0, role0, s, r, g);
    MarkedFree(s0, role0, s, r, g);
    HalfFree(s0, role0, s, r, g);
  }

  /** The effect of a teardown: `r` is gone, the others see what they saw, exactly the tables and unshared pages of its
      first gigabyte were freed, and the counters of exactly its other pages there went down by one. */
  ghost predicate Destroys(s: State, role: Roles, s': State, role': Roles, r: nat) {
    && Inv(s, role) && Inv(s', role') && r in Procs(role)
    && role' == Retire(role, r) && s'.mem == s.mem && Fewer(s'.cow, s.cow)
    && Procs(role') == Procs(role) - {r}
    && ViewOf(s', role') == ViewOf(s, role) - {r}
    && (forall g: nat :: OnlyOwned(s, role, s', r, g))
    && (forall g: nat :: g < TOTAL_FRAMES && GivesBack(s, role, r, g) ==> !s'.used[g])
    && (forall y :: Low(y) ==> Released(s, role, s', r, y))
  }

  lemma TornOwned(s0: State, role0: Roles, s: State, r: nat, gone: set<nat>, g: nat)
    requires Tearing(s0, role0, s, r, gone) && r in gone
    requires At(s0.mem, r, 0).p ==> At(s0.mem, r, 0).pfn in gone
    requires PdOf(s0.mem, r, Ix(0, 0, 0, 0)).Some? ==> PdOf(s0.mem, r, Ix(0, 0, 0, 0)).value in gone
    requires g < TOTAL_FRAMES && GivesBack(s0, role0, r, g)
    ensures !s.used[g]
  {
    if g in role0 && LowTable(role0[g], r) {
      assert RoleOk(s0, role0, g);
      assert TableGone(role0, s, r, 512, g);
    } else {
      var x :| Low(x) && Key(r, x) in TransOf(s0.mem, role0) && TransOf(s0.mem, role0)[Key(r, x)].pfn == g;
      assert Before(x, 512, 0);
      assert Released(s0, role0, s, r, x);
    }
  }

  lemma Torn(s0: State, role0: Roles, s: State, r: nat, gone: set<nat>)
    requires Tearing(s0, role0, s, r, gone) && r in gone
    requires At(s0.mem, r, 0).p ==> At(s0.mem, r, 0).pfn in gone
    requires PdOf(s0.mem, r, Ix(0, 0, 0, 0)).Some? ==> PdOf(s0.mem, r, Ix(0, 0, 0, 0)).value in gone
    ensures Destroys(s0, role0, s, Retire(role0, r), r)
  {
    RetireTree(s0, role0, r);
    RetireView(s0, role0, r);
    forall g: nat | g < TOTAL_FRAMES && GivesBack(s0, role0, r, g) ensures !s.used[g] {
      TornOwned(s0, role0, s, r, gone, g);
    }
    forall y | Low(y) ensures Released(s0, role0, s, r, y) { assert Before(y, 512, 0); }
  }

  /** The low page directory of an address space is its own, never a boot one. */
  lemma LowPdOwn(s: State, role: Roles, r: nat)
    requires Inv(s, role) && IsProc(role, r) && PdOf(s.mem, r, Ix(0, 0, 0, 0)).Some?
    ensures
      var pd := PdOf(s.mem, r, Ix(0, 0, 0, 0)).value;
      Managed(pd) && pd in role && role[pd] == Pd(r, 0, 0)
  {
    var x := Ix(0, 0, 5, 0);
    assert PdOf(s.mem, r, x) == PdOf(s.mem, r, Ix(0, 0, 0, 0));
    PdRole(s, role, r, x);
    assert HugeOk(s.mem, role, Key(r, x));
    assert RoleOk(s, role, PdOf(s.mem, r, x).value);
  }
}
