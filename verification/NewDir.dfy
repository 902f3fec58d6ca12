/** The tables of a new address space (vmm_create_page_dir). */
module NewDir {
  import opened Paging
  import opened Cow
  import opened Spaces

  function RootPage(q: nat): Page { ZeroPage()[0 := Entry(q, 7)] }

  function PdptPage(d: nat): Page {
    ZeroPage()[0 := Entry(d, 7)][1 := Entry(4, 3)][2 := Entry(5, 3)][3 := Entry(6, 3)]
  }

  function LowPd(): Page {
    ZeroPage()[0 := Entry(0, 0x87)][1 := Entry(0x200, 0x87)][2 := Entry(0x400, 0x87)][3 := Entry(0x600, 0x87)]
      [32 := Entry(0x4000, 0x83)][33 := Entry(0x4200, 0x83)][34 := Entry(0x4400, 0x83)]
      [35 := Entry(0x4600, 0x83)][36 := Entry(0x4800, 0x83)][37 := Entry(0x4A00, 0x83)]
  }

  lemma LowPdAt(i: Index)
    ensures LowPd()[i] == if HugeSlot(i) then HugeEntry(Ix(0, 0, i, 0)) else ZERO
  {}

  lemma PdptAt(d: nat, i: Index)
    ensures PdptPage(d)[i] == if i == 0 then Entry(d, 7) else if i < 4 then Entry(3 + i, 3) else ZERO
  {}

  function Build(s: State, r: nat, q: nat, d: nat): State
    requires WellFormed(s) && r < TOTAL_FRAMES && q < TOTAL_FRAMES && d < TOTAL_FRAMES
  {
    s.(used := s.used[r := true][q := true][d := true],
       mem := s.mem[r := RootPage(q)][q := PdptPage(d)][d := LowPd()])
  }

  function Enroll(role: Roles, r: nat, q: nat, d: nat): Roles {
    role[r := Pml4(r)][q := Pdpt(r, 0)][d := Pd(r, 0, 0)]
  }

  ghost predicate Fresh3(s: State, role: Roles, r: nat, q: nat, d: nat) {
    && Tree(s, role)
    && Managed(r) && Managed(q) && Managed(d) && r != q && r != d && q != d
    && !s.used[r] && !s.used[q] && !s.used[d]
  }

  lemma BuildEntry(s: State, role: Roles, r: nat, q: nat, d: nat, g: nat, i: Index)
    requires Fresh3(s, role, r, q, d)
    ensures EntryOk(Build(s, r, q, d), Enroll(role, r, q, d), g, i)
  {
    assert RoleOk(s, role, r) && RoleOk(s, role, q) && RoleOk(s, role, d);
    if g == d { LowPdAt(i); }
    else if g == q { PdptAt(d, i); }
    else if g == r { }
    else { assert EntryOk(s, role, g, i); }
  }

  lemma BuildOldWalk(s: State, role: Roles, r: nat, q: nat, d: nat, g: nat, x: Ix)
    requires Fresh3(s, role, r, q, d) && IsProc(role, g)
    ensures var mem' := Build(s, r, q, d).mem;
      Walk(mem', g, x) == Walk(s.mem, g, x) && PdOf(mem', g, x) == PdOf(s.mem, g, x)
          && PtOf(mem', g, x) == PtOf(s.mem, g, x)
  {
    assert RoleOk(s, role, r) && RoleOk(s, role, q) && RoleOk(s, role, d);
    SameTables(s, Build(s, r, q, d), role, g, x);
  }

  lemma TableEntry(f: nat)
    ensures Entry(f, 7).p && Entry(f, 7).pfn == f && Entry(f, 3).p && Entry(f, 3).pfn == f
  {}

  lemma SameHuge(x: Ix)
    requires x.b == 0
    ensures HugeEntry(x) == HugeEntry(Ix(0, 0, x.c, 0))
  {}

  lemma BootHuge(x: Ix)
    requires 1 <= x.b <= 3
    ensures HugeEntry(x) == BootEntry(3 + x.b, x.c)
  {}

  /** The walk through tables with these entries. */
  lemma NewWalk(mem: seq<Page>, r: nat, q: nat, d: nat, x: Ix)
    requires At(mem, r, x.a) == if x.a == 0 then Entry(q, 7) else ZERO
    requires At(mem, q, x.b) == if x.b == 0 then Entry(d, 7) else if x.b < 4 then Entry(3 + x.b, 3) else ZERO
    requires At(mem, d, x.c) == if HugeSlot(x.c) then HugeEntry(Ix(0, 0, x.c, 0)) else ZERO
    requires 1 <= x.b < 4 ==> At(mem, 3 + x.b, x.c) == BootEntry(3 + x.b, x.c)
    ensures var w := Walk(mem, r, x); if HugeIx(x) then w == Huge(HugeEntry(x)) else w.Unmapped?
  {
    TableEntry(q);
    TableEntry(d);
    TableEntry(3 + x.b);
    if x.b == 0 { SameHuge(x); } else if x.b < 4 { BootHuge(x); }
  }

  /** The new address space maps no 4KB page; its 2MB slots are the fixed ones. */
  lemma BuildNewWalk(s: State, role: Roles, r: nat, q: nat, d: nat, x: Ix)
    requires Fresh3(s, role, r, q, d)
    ensures var w := Walk(Build(s, r, q, d).mem, r, x);
      if HugeIx(x) then w == Huge(HugeEntry(x)) else w.Unmapped?
  {
    LowPdAt(x.c);
    PdptAt(d, x.b);
    var mem' := Build(s, r, q, d).mem;
    if 1 <= x.b < 4 {
      assert IsBootPd(3 + x.b);
      assert At(mem', 3 + x.b, x.c) == At(s.mem, 3 + x.b, x.c);
    }
    NewWalk(mem', r, q, d, x);
  }

  lemma BuildRole(s: State, role: Roles, r: nat, q: nat, d: nat, g: nat)
    requires Fresh3(s, role, r, q, d)
    ensures RoleOk(Build(s, r, q, d), Enroll(role, r, q, d), g)
  {
    assert RoleOk(s, role, r) && RoleOk(s, role, q) && RoleOk(s, role, d) && RoleOk(s, role, g);
    if g in role {
      SameRole(s, Build(s, r, q, d), role, g);
    } else if g == d {
      PdptAt(d, 0);
    }
  }

  lemma BuildTree(s: State, role: Roles, r: nat, q: nat, d: nat)
    requires Fresh3(s, role, r, q, d)
    ensures r !in role && q !in role && d !in role
    ensures Tree(Build(s, r, q, d), Enroll(role, r, q, d))
  {
    assert RoleOk(s, role, r) && RoleOk(s, role, q) && RoleOk(s, role, d);
    forall g: nat, i: Index ensures EntryOk(Build(s, r, q, d), Enroll(role, r, q, d), g, i) {
      BuildEntry(s, role, r, q, d, g, i);
    }
    forall g: nat ensures RoleOk(Build(s, r, q, d), Enroll(role, r, q, d), g) {
      BuildRole(s, role, r, q, d, g);
    }
    forall g: nat, i: Index | IsBootPd(g) ensures At(Build(s, r, q, d).mem, g, i) == BootEntry(g, i) {
      assert At(Build(s, r, q, d).mem, g, i) == At(s.mem, g, i);
    }
  }

  lemma BuildProcs(s: State, role: Roles, r: nat, q: nat, d: nat)
    requires Fresh3(s, role, r, q, d)
    ensures Procs(Enroll(role, r, q, d)) == Procs(role) + {r} && r !in Procs(role)
  {
    assert RoleOk(s, role, r) && RoleOk(s, role, q) && RoleOk(s, role, d);
  }

  lemma BuildKey(s: State, role: Roles, r: nat, q: nat, d: nat, k: Key)
    requires Fresh3(s, role, r, q, d) && Procs(Enroll(role, r, q, d)) == Procs(role) + {r} && r !in Procs(role)
    ensures
      var m, m' := TransOf(s.mem, role), TransOf(Build(s, r, q, d).mem, Enroll(role, r, q, d));
      (k in m' <==> k in m) && (k in m ==> m'[k] == m[k])
  {
    assert k.r in Procs(Enroll(role, r, q, d)) <==> k.r in Procs(role) || k.r == r;
    if k.r == r {
      BuildNewWalk(s, role, r, q, d, k.x);
    } else if IsProc(role, k.r) {
      BuildOldWalk(s, role, r, q, d, k.r, k.x);
    }
  }

  lemma BuildTrans(s: State, role: Roles, r: nat, q: nat, d: nat)
    requires Fresh3(s, role, r, q, d)
    ensures TransOf(Build(s, r, q, d).mem, Enroll(role, r, q, d)) == TransOf(s.mem, role)
  {
    BuildProcs(s, role, r, q, d);
    var m, m' := TransOf(s.mem, role), TransOf(Build(s, r, q, d).mem, Enroll(role, r, q, d));
    forall k: Key ensures (k in m' <==> k in m) && (k in m ==> m'[k] == m[k]) {
      BuildKey(s, role, r, q, d, k);
    }
    TransEqual(m, m');
  }

  lemma BuildFrames(s: State, role: Roles, r: nat, q: nat, d: nat)
    requires Fresh3(s, role, r, q, d)
    ensures View(Procs(role), TransOf(s.mem, role), Build(s, r, q, d).mem) == ViewOf(s, role)
  {
    ViewFrames(s, role, Build(s, r, q, d).mem);
  }

  lemma BuildView(s: State, role: Roles, r: nat, q: nat, d: nat)
    requires Fresh3(s, role, r, q, d)
    ensures ViewOf(Build(s, r, q, d), Enroll(role, r, q, d)) == ViewOf(s, role)[r := imap[]]
  {
    BuildTrans(s, role, r, q, d);
    BuildProcs(s, role, r, q, d);
    BuildFrames(s, role, r, q, d);
    var m := TransOf(s.mem, role);
    forall x: Ix ensures Key(r, x) !in m {
      if Key(r, x) in m { MappedOk(s, role, Key(r, x)); }
    }
    ViewNew(Procs(role), m, Build(s, r, q, d).mem, r);
  }

  lemma BuildInv(s: State, role: Roles, r: nat, q: nat, d: nat)
    requires Fresh3(s, role, r, q, d) && Inv(s, role)
    ensures Inv(Build(s, r, q, d), Enroll(role, r, q, d))
  {
    BuildTree(s, role, r, q, d);
    BuildTrans(s, role, r, q, d);
    BuildProcs(s, role, r, q, d);
    MoreProcs(Procs(role), TransOf(s.mem, role), s.cow, r);
    forall k: Key ensures HugeOk(Build(s, r, q, d).mem, Enroll(role, r, q, d), k) {
      assert k.r in Procs(Enroll(role, r, q, d)) <==> k.r in Procs(role) || k.r == r;
      if k.r == r {
        BuildNewWalk(s, role, r, q, d, k.x);
      } else if IsProc(role, k.r) {
        assert HugeOk(s.mem, role, k);
        BuildOldWalk(s, role, r, q, d, k.r, k.x);
      }
    }
  }

  /** The effect of a successful creation: one more, empty, address space; every newly taken frame is a table of it. */
  ghost predicate Creates(s: State, role: Roles, s': State, role': Roles, r: nat) {
    && Inv(s, role) && Inv(s', role')
    && s'.cow == s.cow
    && r !in Procs(role) && Procs(role') == Procs(role) + {r}
    && ViewOf(s', role') == ViewOf(s, role)[r := imap[]]
    && TransOf(s'.mem, role') == TransOf(s.mem, role)
    && Adopts(s.used, role, s'.used, role', r)
  }

  /** The new tables all belong to `r` and are exactly the frames newly marked. */
  ghost predicate Adopts(used: seq<bool>, role: Roles, used': seq<bool>, role': Roles, r: nat) {
    && |used'| == |used|
    && (forall f :: f in role ==> f in role' && role'[f] == role[f])
    && (forall f :: f in role' && f !in role ==> 0 <= f < |used| && !used[f])
    && (forall f :: f in role' && f !in role ==>
        role'[f] == Pml4(r) || role'[f] == Pdpt(r, 0) || role'[f] == Pd(r, 0, 0))
    && (forall f :: 0 <= f < |used| ==> used'[f] == (used[f] || (f in role' && f !in role)))
  }

  lemma EnrollAdopts(used: seq<bool>, role: Roles, r: nat, q: nat, d: nat)
    requires r !in role && q !in role && d !in role && r < |used| && q < |used| && d < |used|
    requires !used[r] && !used[q] && !used[d]
    requires r != q && r != d && q != d
    ensures Adopts(used, role, used[r := true][q := true][d := true], Enroll(role, r, q, d), r)
  {}

  lemma BuildCreates(s: State, role: Roles, r: nat, q: nat, d: nat)
    requires Fresh3(s, role, r, q, d) && Inv(s, role)
    ensures Creates(s, role, Build(s, r, q, d), Enroll(role, r, q, d), r)
  {
    BuildInv(s, role, r, q, d);
    BuildView(s, role, r, q, d);
    BuildProcs(s, role, r, q, d);
    BuildTree(s, role, r, q, d);
    BuildTrans(s, role, r, q, d);
    EnrollAdopts(s.used, role, r, q, d);
  }
}
