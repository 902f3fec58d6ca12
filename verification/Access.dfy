/** What an address space can reach besides its own pages: the 2MB windows of the kernel, and who may use them. */
module Access {
  import opened Paging
  import opened Cow
  import opened Spaces
  import opened Vmm

  /** The addresses that every address space shows at their own place: heap and kernel image, kernel data and stack, and
      the gigabytes of the boot page directories. */
  predicate Window(v: nat) {
    v < 0x80_0000 || 0x400_0000 <= v < 0x4C0_0000 || 0x4000_0000 <= v < 0x1_0000_0000
  }

  lemma Digits(v: nat, n: nat)
    requires v < 0x1_0000_0000_0000 && n == v / 0x20_0000
    ensures IxOf(v) == Ix(n / 0x4_0000, (n / 512) % 512, n % 512, (v / 0x1000) % 512)
    ensures v == n * 0x20_0000 + v % 0x20_0000
  {
    assert v / 0x4000_0000 == n / 512;
    assert v / 0x80_0000_0000 == n / 0x4_0000;
  }

  lemma WindowIx(v: nat, n: nat)
    requires v < 0x1_0000_0000_0000 && n == v / 0x20_0000
    ensures Window(v) <==> n < 4 || 32 <= n < 38 || 512 <= n < 2048
  {}

  /** The windows are the pages with a 2MB entry, and the entry holds the 2MB number of the address. */
  lemma WindowHuge(v: nat)
    requires v < 0x1_0000_0000_0000
    ensures Window(v) <==> HugeIx(IxOf(v))
    ensures Window(v) ==> HugeEntry(IxOf(v)).pfn == (v / 0x20_0000) * 0x200
    ensures Window(v) ==> (HugeEntry(IxOf(v)).us <==> v < 0x80_0000)
  {
    var n := v / 0x20_0000;
    Digits(v, n);
    WindowIx(v, n);
    TwoDigits(n, n / 512, n % 512);
  }

  lemma TwoDigits(n: nat, q: nat, c: nat)
    requires q == n / 512 && c == n % 512
    ensures n == q * 512 + c && n / 0x4_0000 == q / 512
  {
    assert n / 0x4_0000 == (n / 512) / 512;
  }

  lemma HugePhys(v: nat, w: Word)
    requires w.pfn == (v / 0x20_0000) * 0x200
    ensures (w.pfn - w.pfn % 512) * 4096 + v % 0x20_0000 == v
  {
    var n := v / 0x20_0000;
    assert (n * 0x200) % 512 == 0;
  }

  /** In every state of every run, in every address space: the windows, and nothing else, are mapped by 2MB entries, and
      they are mapped to themselves. */
  lemma WindowsAtTheirPlace(s: State, role: Roles, r: nat, v: nat)
    requires Inv(s, role) && IsProc(role, r) && v < 0x1_0000_0000_0000
    ensures Walk(s.mem, r, IxOf(v)).Huge? <==> Window(v)
    ensures Window(v) ==> PhysOf(s.mem, r, v) == v
  {
    WindowHuge(v);
    assert HugeOk(s.mem, role, Key(r, IxOf(v)));
    if Window(v) { HugePhys(v, HugeEntry(IxOf(v))); }
  }

  /** No page of any address space lies in a window or in a table: what user code can write besides the first 8MB is
      nobody's but the users'. */
  lemma PagesApart(s: State, role: Roles, k: Key)
    requires Inv(s, role) && k in TransOf(s.mem, role)
    ensures var f := TransOf(s.mem, role)[k].pfn;
            f < TOTAL_FRAMES && s.used[f] && f !in role && forall v :: v / 4096 == f ==> !Window(v)
  {
    assert LeafOk(Procs(role), TransOf(s.mem, role), k);
    MappedOk(s, role, k);
  }

  /** A new address space shows the kernel where the kernel is. */
  method CreateAndLook(m: Machine, v: nat) returns (r: nat, phys: nat)
    requires m.Shape() && Inv(m.S(), m.role) && Window(v)
    modifies m, m.bitmap, m.frames
    ensures r == 0 <==> FreeFrom(old(m.S().used), RESERVED) < 3
    ensures phys == if r == 0 then 0 else v
  {
    r := m.CreatePageDir();
    if r == 0 { return 0, 0; }
    WindowsAtTheirPlace(m.S(), m.role, r, v);
    phys := m.GetPhys(r, v);
  }

  // ---------------------------------------------------------------------------
  // User code
  // ---------------------------------------------------------------------------

  /** The processor lets user code read the page: every entry of the walk is present with its user bit. */
  predicate UserReads(mem: seq<Page>, r: nat, x: Ix) {
    var e4 := At(mem, r, x.a);
    var e3 := At(mem, e4.pfn, x.b);
    var e2 := At(mem, e3.pfn, x.c);
    var e1 := At(mem, e2.pfn, x.d);
    && e4.p && e4.us && e3.p && e3.us && e2.p && e2.us
    && (e2.ps || (e1.p && e1.us))
  }

  /** And write it: every entry has its write bit as well. */
  predicate UserWrites(mem: seq<Page>, r: nat, x: Ix) {
    var e4 := At(mem, r, x.a);
    var e3 := At(mem, e4.pfn, x.b);
    var e2 := At(mem, e3.pfn, x.c);
    UserReads(mem, r, x) && e4.rw && e3.rw && e2.rw && (e2.ps || At(mem, e2.pfn, x.d).rw)
  }

  /** The bits above the last entry never stand in the way, except on the way to the boot page directories. */
  lemma UpperBits(s: State, role: Roles, r: nat, x: Ix)
    requires Tree(s, role) && IsProc(role, r)
    ensures
      match Walk(s.mem, r, x)
      case Unmapped => !UserReads(s.mem, r, x)
      case Huge(w) => PdOf(s.mem, r, x).Some?
        && var own := !IsBootPd(PdOf(s.mem, r, x).value);
          (UserReads(s.mem, r, x) <==> own && w.us) && (UserWrites(s.mem, r, x) <==> own && w.us && w.rw)
      case Mapped(w) => (UserReads(s.mem, r, x) <==> w.us) && (UserWrites(s.mem, r, x) <==> w.us && w.rw)
  {
    WalkRoles(s, role, r, x);
    var e4 := At(s.mem, r, x.a);
    var e3 := At(s.mem, e4.pfn, x.b);
    var e2 := At(s.mem, e3.pfn, x.c);
    assert EntryOk(s, role, r, x.a) && EntryOk(s, role, e4.pfn, x.b) && EntryOk(s, role, e3.pfn, x.c);
    assert RoleOk(s, role, e3.pfn);
  }

  lemma BootWindow(s: State, role: Roles, r: nat, x: Ix)
    requires Tree(s, role) && IsProc(role, r) && Walk(s.mem, r, x) == Huge(HugeEntry(x)) && PdOf(s.mem, r, x).Some?
    ensures IsBootPd(PdOf(s.mem, r, x).value) ==> !HugeEntry(x).us
  {
    var pd := PdOf(s.mem, r, x).value;
    if IsBootPd(pd) { assert At(s.mem, pd, x.c) == BootEntry(pd, x.c); }
  }

  lemma LeafBits(m: Trans, procs: set<nat>, k: Key)
    requires k in m && LeafOk(procs, m, k)
    ensures m[k].us && m[k].p && (m[k].rw <==> !m[k].cow)
  {}

  /** User code reads exactly the first 8MB and the pages of its own address space; it writes the first 8MB and those of
      its pages that are not waiting to be copied. The kernel's other windows are closed to it. */
  lemma UserReach(s: State, role: Roles, r: nat, v: nat)
    requires Inv(s, role) && IsProc(role, r) && v < 0x1_0000_0000_0000
    ensures var x, m := IxOf(v), TransOf(s.mem, role);
      && (UserReads(s.mem, r, x) <==> v < 0x80_0000 || Key(r, x) in m)
      && (UserWrites(s.mem, r, x) <==> v < 0x80_0000 || (Key(r, x) in m && !m[Key(r, x)].cow))
  {
    var x := IxOf(v);
    WindowsAtTheirPlace(s, role, r, v);
    WindowHuge(v);
    assert HugeOk(s.mem, role, Key(r, x));
    UpperBits(s, role, r, x);
    if Window(v) {
      BootWindow(s, role, r, x);
    } else if Walk(s.mem, r, x).Mapped? {
      var m := TransOf(s.mem, role);
      assert LeafOk(Procs(role), m, Key(r, x));
      LeafBits(m, Procs(role), Key(r, x));
    }
  }
}
