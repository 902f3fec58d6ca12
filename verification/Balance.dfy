/** Who holds which frame: exact accounting for address spaces that were never shared. */
module Balance {
  import opened Paging
  import opened Cow
  import opened Spaces
  import opened NewDir
  import opened Steps
  import opened Teardown

  /** Frame `g` is a table of an address space in `R`, or one of their pages. */
  ghost predicate OwnedIn(role: Roles, m: Trans, R: set<nat>, g: nat) {
    (g in role && role[g].r in R) || exists k :: k in m && k.r in R && m[k].pfn == g
  }

  /** The address spaces in `R` have pages and tables in the first gigabyte only, and no page of them is counted as
      shared. */
  ghost predicate Sole(role: Roles, m: Trans, cow: seq<nat>, R: set<nat>) {
    && (forall k :: k in m && k.r in R ==> Low(k.x) && m[k].pfn < |cow| && cow[m[k].pfn] == 0)
    && (forall t :: t in role && role[t].r in R ==> LowTable(role[t], role[t].r))
  }

  ghost predicate OwnedSince(used0: seq<bool>, used: seq<bool>, role: Roles, m: Trans, R: set<nat>, g: nat) {
    g < |used0| == |used| ==>
      && used[g] == (used0[g] || OwnedIn(role, m, R, g))
      && (OwnedIn(role, m, R, g) ==> !used0[g])
  }

  /** Since `used0`, exactly the frames that the address spaces in `R` own were taken, and these are their sole
      owners. */
  ghost predicate Holds(used0: seq<bool>, used: seq<bool>, cow: seq<nat>, role: Roles, m: Trans, R: set<nat>) {
    |used0| == |used| && Sole(role, m, cow, R) && forall g: nat :: OwnedSince(used0, used, role, m, R, g)
  }

  ghost predicate HoldsIn(used0: seq<bool>, s: State, role: Roles, R: set<nat>) {
    Holds(used0, s.used, s.cow, role, TransOf(s.mem, role), R)
  }

  lemma HoldsNone(s: State, role: Roles)
    ensures HoldsIn(s.used, s, role, {})
  {}

  /** When nobody is left, the bitmap is what it was. */
  lemma HoldsNobody(used0: seq<bool>, s: State, role: Roles)
    requires HoldsIn(used0, s, role, {})
    ensures s.used == used0
  {
    forall g: nat | g < |used0| ensures s.used[g] == used0[g] {
      assert OwnedSince(used0, s.used, role, TransOf(s.mem, role), {}, g);
    }
  }

  // ---------------------------------------------------------------------------
  // A new address space
  // ---------------------------------------------------------------------------

  lemma AdoptedOwned(used: seq<bool>, role: Roles, used': seq<bool>, role': Roles, m: Trans, R: set<nat>, r: nat,
      g: nat)
    requires Adopts(used, role, used', role', r) && (forall x :: Key(r, x) !in m)
      && (forall t :: t in role ==> role[t].r != r)
    ensures OwnedIn(role', m, R + {r}, g) <==> OwnedIn(role, m, R, g) || (g in role' && g !in role)
  {
    if k :| k in m && k.r in R + {r} && m[k].pfn == g { assert k == Key(k.r, k.x) && k.r in R; }
  }

  lemma HoldsAdopted(used0: seq<bool>, used: seq<bool>, cow: seq<nat>, role: Roles, used': seq<bool>, role': Roles,
      m: Trans, R: set<nat>, r: nat)
    requires Holds(used0, used, cow, role, m, R) && Adopts(used, role, used', role', r)
    requires (forall x :: Key(r, x) !in m) && (forall t :: t in role ==> role[t].r != r)
    ensures Holds(used0, used', cow, role', m, R + {r})
  {
    forall g: nat ensures OwnedSince(used0, used', role', m, R + {r}, g) {
      assert OwnedSince(used0, used, role, m, R, g);
      AdoptedOwned(used, role, used', role', m, R, r, g);
    }
    forall k | k in m && k.r in R + {r} ensures Low(k.x) && m[k].pfn < |cow| && cow[m[k].pfn] == 0 {
      assert k == Key(k.r, k.x);
    }
  }

  lemma HoldsCreated(used0: seq<bool>, s: State, role: Roles, s': State, role': Roles, R: set<nat>, r: nat)
    requires Creates(s, role, s', role', r) && HoldsIn(used0, s, role, R)
    ensures HoldsIn(used0, s', role', R + {r})
  {
    forall x: Ix ensures Key(r, x) !in TransOf(s.mem, role) {
      if Key(r, x) in TransOf(s.mem, role) { MappedOk(s, role, Key(r, x)); }
    }
    forall t | t in role ensures role[t].r != r {
      assert RoleOk(s, role, t);
      assert role[t].r in Procs(role);
    }
    HoldsAdopted(used0, s.used, s.cow, role, s'.used, role', TransOf(s.mem, role), R, r);
  }

  // ---------------------------------------------------------------------------
  // A new page
  // ---------------------------------------------------------------------------

  lemma MappedOwned(role: Roles, m: Trans, role': Roles, R: set<nat>, r: nat, x: Ix, f: nat, g: nat)
    requires NewOn(role, role', r, x) && Key(r, x) !in m && r in R
    requires forall h :: h in role ==> h in role' && role'[h] == role[h]
    ensures OwnedIn(role', m[Key(r, x) := Entry(f, 7)], R, g) <==>
            OwnedIn(role, m, R, g) || g == f || (g in role' && g !in role)
  {
    var m' := m[Key(r, x) := Entry(f, 7)];
    assert Key(r, x) in m' && m'[Key(r, x)].pfn == f;
    if k :| k in m && k.r in R && m[k].pfn == g { assert k in m' && m'[k].pfn == g; }
  }

  lemma HoldsMapped(used0: seq<bool>, used: seq<bool>, cow: seq<nat>, role: Roles, m: Trans, used': seq<bool>,
      role': Roles, R: set<nat>, r: nat, x: Ix, f: nat)
    requires Holds(used0, used, cow, role, m, R) && NewOn(role, role', r, x) && Low(x) && Key(r, x) !in m && r in R
    requires f < |used| == |used'| == |cow| && !used[f] && cow[f] == 0
    requires forall h :: h in role ==> h in role' && role'[h] == role[h]
    requires forall h :: h in role' && h !in role ==> 0 <= h < |used| && !used[h]
    requires forall g :: 0 <= g < |used| ==> used'[g] == (used[g] || g == f || (g in role' && g !in role))
    ensures Holds(used0, used', cow, role', m[Key(r, x) := Entry(f, 7)], R)
  {
    var m' := m[Key(r, x) := Entry(f, 7)];
    forall g: nat ensures OwnedSince(used0, used', role', m', R, g) {
      assert OwnedSince(used0, used, role, m, R, g);
      MappedOwned(role, m, role', R, r, x, f, g);
    }
  }

  /** The state with a zeroed frame `f` taken. */
  ghost function Zeroed(s: State, f: nat): State
    requires WellFormed(s) && f < TOTAL_FRAMES
  {
    s.(used := s.used[f := true], mem := s.mem[f := ZeroPage()])
  }

  lemma TakesMarks(s: State, role: Roles, s': State, role': Roles, f: nat)
    requires WellFormed(s) && f < TOTAL_FRAMES && Takes(Zeroed(s, f), role, s', role')
    ensures s'.cow == s.cow
    ensures forall h :: h in role ==> h in role' && role'[h] == role[h]
    ensures forall h :: h in role' && h !in role ==> 0 <= h < |s.used| && !s.used[h]
    ensures forall g :: 0 <= g < |s.used| ==> s'.used[g] == (s.used[g] || g == f || (g in role' && g !in role))
  {
    forall h | h in role' && h !in role ensures 0 <= h < |s.used| && !s.used[h] {
      assert !Zeroed(s, f).used[h];
    }
    forall g | 0 <= g < |s.used| ensures s'.used[g] == (s.used[g] || g == f || (g in role' && g !in role)) {
      assert Zeroed(s, f).used[g] == (s.used[g] || g == f);
    }
  }

  lemma HoldsTouched(used0: seq<bool>, s: State, role: Roles, s': State, role': Roles, R: set<nat>, r: nat, x: Ix,
      f: nat)
    requires Inv(s, role) && HoldsIn(used0, s, role, R) && r in R && Low(x) && Managed(f) && !s.used[f]
    requires MapsPage(Zeroed(s, f), role, s', role', r, x, Entry(f, 7)) && NewOn(role, role', r, x)
    requires TransOf(Zeroed(s, f).mem, role) == TransOf(s.mem, role) && Key(r, x) !in TransOf(s.mem, role)
    ensures HoldsIn(used0, s', role', R)
  {
    TakesMarks(s, role, s', role', f);
    assert s.cow[f] == 0;
    HoldsMapped(used0, s.used, s.cow, role, TransOf(s.mem, role), s'.used, role', R, r, x, f);
  }

  // ---------------------------------------------------------------------------
  // A store, an exit
  // ---------------------------------------------------------------------------

  lemma HoldsSame(used0: seq<bool>, s: State, s': State, role: Roles, R: set<nat>)
    requires HoldsIn(used0, s, role, R) && SameFrames(s, s', role)
    ensures HoldsIn(used0, s', role, R)
  {
    var m, m' := TransOf(s.mem, role), TransOf(s'.mem, role);
    forall g: nat ensures OwnedSince(used0, s'.used, role, m', R, g) {
      assert OwnedSince(used0, s.used, role, m, R, g);
      SameOwned(role, m, m', R, g);
    }
  }

  lemma SameOwned(role: Roles, m: Trans, m': Trans, R: set<nat>, g: nat)
    requires forall k :: (k in m' <==> k in m) && (k in m ==> m'[k].pfn == m[k].pfn)
    ensures OwnedIn(role, m', R, g) <==> OwnedIn(role, m, R, g)
  {
    if k :| k in m && k.r in R && m[k].pfn == g { assert k in m' && m'[k].pfn == g; }
    if k :| k in m' && k.r in R && m'[k].pfn == g { assert k in m && m[k].pfn == g; }
  }

  /** What an address space that is its own sole owner gives back is all it owns. */
  lemma GivesAll(s: State, role: Roles, R: set<nat>, r: nat, g: nat)
    requires Sole(role, TransOf(s.mem, role), s.cow, R) && r in R
    ensures GivesBack(s, role, r, g) <==> OwnedIn(role, TransOf(s.mem, role), {r}, g)
  {
    var m := TransOf(s.mem, role);
    if k :| k in m && k.r in {r} && m[k].pfn == g { assert k == Key(r, k.x); }
    if x :| Low(x) && Key(r, x) in m && m[Key(r, x)].pfn == g { assert Key(r, x).r in {r}; }
  }

  lemma WithoutOwned(role: Roles, m: Trans, R: set<nat>, r: nat, g: nat)
    ensures OwnedIn(Retire(role, r), Without(m, r), R - {r}, g) <==> OwnedIn(role, m, R - {r}, g)
  {
    var m' := Without(m, r);
    if k :| k in m && k.r in R - {r} && m[k].pfn == g { assert k in m' && m'[k].pfn == g; }
    if k :| k in m' && k.r in R - {r} && m'[k].pfn == g { assert k in m && m[k].pfn == g; }
  }

  /** The others own what they owned. */
  lemma OthersOwn(s: State, role: Roles, R: set<nat>, r: nat, g: nat)
    requires Tree(s, role)
    ensures OwnedIn(Retire(role, r), TransOf(s.mem, Retire(role, r)), R - {r}, g)
      <==> OwnedIn(role, TransOf(s.mem, role), R - {r}, g)
  {
    RetireTrans(s, role, r);
    WithoutOwned(role, TransOf(s.mem, role), R, r, g);
  }

  /** What is owned is in use. */
  lemma OwnedUsed(s: State, role: Roles, R: set<nat>, g: nat)
    requires Inv(s, role) && OwnedIn(role, TransOf(s.mem, role), R, g)
    ensures Managed(g) && s.used[g]
  {
    var m := TransOf(s.mem, role);
    if g in role {
      assert RoleOk(s, role, g);
    } else {
      var k :| k in m && k.r in R && m[k].pfn == g;
      MappedOk(s, role, k);
      assert LeafOk(Procs(role), m, k);
    }
  }

  lemma SplitOwned(role: Roles, m: Trans, R: set<nat>, r: nat, g: nat)
    requires r in R
    ensures OwnedIn(role, m, R, g) <==> OwnedIn(role, m, {r}, g) || OwnedIn(role, m, R - {r}, g)
  {
    if k :| k in m && k.r in R && m[k].pfn == g { assert k.r in {r} || k.r in R - {r}; }
    if k :| k in m && k.r in {r} && m[k].pfn == g { assert k.r in R; }
    if k :| k in m && k.r in R - {r} && m[k].pfn == g { assert k.r in R; }
  }

  lemma ExitFrame(used0: seq<bool>, s: State, role: Roles, s': State, role': Roles, R: set<nat>, r: nat, g: nat)
    requires Destroys(s, role, s', role', r) && HoldsIn(used0, s, role, R) && r in R && R <= Procs(role)
      && g < TOTAL_FRAMES
    ensures OwnedSince(used0, s'.used, role', TransOf(s'.mem, role'), R - {r}, g)
  {
    var m := TransOf(s.mem, role);
    assert OwnedSince(used0, s.used, role, m, R, g) && OnlyOwned(s, role, s', r, g);
    SplitOwned(role, m, R, r, g);
    GivesAll(s, role, R, r, g);
    OthersOwn(s, role, R, r, g);
    if OwnedIn(role, m, R - {r}, g) { OwnedUsed(s', role', R - {r}, g); }
    if OwnedIn(role, m, R, g) { OwnedUsed(s, role, R, g); }
  }

  /** A teardown gives back exactly the frames of the one that goes. */
  lemma HoldsExit(used0: seq<bool>, s: State, role: Roles, s': State, role': Roles, R: set<nat>, r: nat)
    requires Destroys(s, role, s', role', r) && HoldsIn(used0, s, role, R) && r in R && R <= Procs(role)
    ensures HoldsIn(used0, s', role', R - {r})
  {
    forall g: nat ensures OwnedSince(used0, s'.used, role', TransOf(s'.mem, role'), R - {r}, g) {
      if g < TOTAL_FRAMES { ExitFrame(used0, s, role, s', role', R, r, g); }
    }
    RetireTrans(s, role, r);
  }

  // ---------------------------------------------------------------------------
  // All address spaces created since a point in time
  // ---------------------------------------------------------------------------

  /** Since `used0`, when the address spaces in `live0` were there, exactly the frames of the later ones were taken. */
  ghost predicate Kept(used0: seq<bool>, live0: set<nat>, s: State, role: Roles) {
    live0 <= Procs(role) && HoldsIn(used0, s, role, Procs(role) - live0)
  }

  lemma KeptStart(s: State, role: Roles)
    ensures Kept(s.used, Procs(role), s, role)
  {
    assert Procs(role) - Procs(role) == {};
    HoldsNone(s, role);
  }

  lemma KeptNobody(used0: seq<bool>, s: State, role: Roles)
    requires Kept(used0, Procs(role), s, role)
    ensures s.used == used0
  {
    assert Procs(role) - Procs(role) == {};
    HoldsNobody(used0, s, role);
  }

  lemma KeptCreated(used0: seq<bool>, live0: set<nat>, s: State, role: Roles, s': State, role': Roles, r: nat)
    requires Creates(s, role, s', role', r) && Kept(used0, live0, s, role)
    ensures Kept(used0, live0, s', role')
  {
    HoldsCreated(used0, s, role, s', role', Procs(role) - live0, r);
    assert Procs(role') - live0 == Procs(role) - live0 + {r};
  }

  lemma KeptTouched(used0: seq<bool>, live0: set<nat>, s: State, role: Roles, s': State, role': Roles, r: nat, x: Ix,
      f: nat)
    requires Inv(s, role) && Kept(used0, live0, s, role) && r in Procs(role) - live0 && Low(x) && Managed(f)
      && !s.used[f]
    requires MapsPage(Zeroed(s, f), role, s', role', r, x, Entry(f, 7)) && NewOn(role, role', r, x)
    requires Key(r, x) !in TransOf(s.mem, role)
    ensures Kept(used0, live0, s', role')
  {
    FreshPage(s, role, f, ZeroPage());
    HoldsTouched(used0, s, role, s', role', Procs(role) - live0, r, x, f);
  }

  lemma KeptSame(used0: seq<bool>, live0: set<nat>, s: State, s': State, role: Roles)
    requires Kept(used0, live0, s, role) && SameFrames(s, s', role)
    ensures Kept(used0, live0, s', role)
  {
    HoldsSame(used0, s, s', role, Procs(role) - live0);
  }

  /** The frames of the later address spaces are counted for nobody else. */
  lemma KeptAlone(used0: seq<bool>, live0: set<nat>, s: State, role: Roles, r: nat, x: Ix)
    requires Kept(used0, live0, s, role) && r in Procs(role) - live0
    ensures Alone(s, role, r, x)
  {
    assert Key(r, x).r in Procs(role) - live0;
  }

  lemma KeptExit(used0: seq<bool>, live0: set<nat>, s: State, role: Roles, s': State, role': Roles, r: nat)
    requires Destroys(s, role, s', role', r) && Kept(used0, live0, s, role) && r in Procs(role) - live0
    ensures Kept(used0, live0, s', role')
  {
    HoldsExit(used0, s, role, s', role', Procs(role) - live0, r);
    assert Procs(role') - live0 == Procs(role) - live0 - {r};
  }
}
